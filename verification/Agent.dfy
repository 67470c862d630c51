/**
 internal/agent Tick as a protocol: one agent per shard reports, observes the stored state, truncates or drains, and
 reports again, while any server call and any write may come in between. A FinishCleaning that is not the agent's own
 step stands for a report that outlived its caller, or for a second agent. The exact steps that spoil recycling are
 named by Endangers.
 */
module Agent {
  import opened Common
  import opened Fsm
  import opened Table
  import opened Transactions
  import opened Lifecycle
  import opened Runs
  import opened OneWriter

  /** What the agent of a shard does next. */
  datatype Pc = Idle | Reported | Saw(state: State) | Truncated | Drained

  /** `pcs` holds one agent per uuid (absent means idle); `loaded` the shards whose database holds data. */
  datatype System = System(db: Db, pcs: map<string, Pc>, loaded: set<string>)

  datatype Action =
    | ServerCall(call: Call, now: int)
    | Write(uuid: string)
    | ReportStats(uuid: string, bytes: int, now: int)
    | Observe(uuid: string)
    | Truncate(uuid: string)
    | ReportCleaned(uuid: string)
    | Drain(uuid: string)
    | ReportDrainComplete(uuid: string)
    | GiveUp(uuid: string)

  function PcOf(s: System, u: string): Pc {
    if u in s.pcs then s.pcs[u] else Idle
  }

  /** The shard is registered. */
  predicate Known(s: System, u: string) {
    Any(s.db.shards, WithUuid(u))
  }

  function StateOf(db: Db, u: string): Option<State> {
    var k := First(db.shards, WithUuid(u));
    if k.Some? then Some(db.shards[k.value].state) else None
  }

  predicate Enabled(s: System, a: Action) {
    match a
    case ServerCall(_, _) => true
    case Write(u) => Known(s, u)
    case ReportStats(u, _, _) => PcOf(s, u).Idle? && Known(s, u)
    case Observe(u) => PcOf(s, u).Reported? && Known(s, u)
    case Truncate(u) => PcOf(s, u) == Saw(Cleaning)
    case ReportCleaned(u) => PcOf(s, u).Truncated?
    case Drain(u) => PcOf(s, u) == Saw(Draining)
    case ReportDrainComplete(u) => PcOf(s, u).Drained?
    case GiveUp(_) => true
  }

  function Next(s: System, a: Action): System {
    match a
    case ServerCall(call, now) => s.(db := Exec(s.db, call, now).db)
    case Write(u) => s.(loaded := s.loaded + {u})
    case ReportStats(u, bytes, now) =>
      s.(db := Exec(s.db, CallUpdateStats(u, bytes), now).db, pcs := s.pcs[u := Reported])
    case Observe(u) => s.(pcs := s.pcs[u := if Known(s, u) then Saw(StateOf(s.db, u).value) else Idle])
    case Truncate(u) => s.(loaded := s.loaded - {u}, pcs := s.pcs[u := Truncated])
    case ReportCleaned(u) => s.(db := Exec(s.db, CallFinishCleaning(u), 0).db, pcs := s.pcs[u := Idle])
    case Drain(u) => s.(pcs := s.pcs[u := Drained])
    case ReportDrainComplete(u) => s.(db := Exec(s.db, CallMarkDrainReady(u), 0).db, pcs := s.pcs[u := Idle])
    case GiveUp(u) => s.(pcs := s.pcs[u := Idle])
  }

  // ---- invariant and the steps that break it ----------------------------------------------------------------

  /** An agent that means to clean has a shard in cleaning; a truncated shard and a standby hold no data. */
  predicate RowSafe(s: System, r: Shard) {
    && (PcOf(s, r.uuid) == Saw(Cleaning) || PcOf(s, r.uuid).Truncated? ==> r.state == Cleaning)
    && (PcOf(s, r.uuid).Truncated? ==> r.uuid !in s.loaded)
    && (r.state == Standby ==> r.uuid !in s.loaded)
  }

  predicate Safe(s: System) {
    && Inv(s.db)
    && (forall k :: 0 <= k < |s.db.shards| ==> RowSafe(s, s.db.shards[k]))
    && (forall u :: u in s.loaded ==> Known(s, u))
    && (forall u :: u in s.pcs && (s.pcs[u] == Saw(Cleaning) || s.pcs[u].Truncated?) ==> Known(s, u))
  }

  /** Its database holds data, or its agent still counts on it being in cleaning. */
  predicate InUse(s: System, u: string) {
    u in s.loaded || PcOf(s, u) == Saw(Cleaning) || PcOf(s, u).Truncated?
  }

  /**
   The steps that spoil recycling: ending the cleaning of a shard in use, by hand or by a report that is not its
   agent's current one, and a write that arrives after the truncation or in the pool.
   */
  predicate Endangers(s: System, a: Action) {
    match a
    case ServerCall(CallFinishCleaning(u), _) => StateOf(s.db, u) == Some(Cleaning) && InUse(s, u)
    case ServerCall(CallPatchState(id, Standby), _) =>
      var k := First(s.db.shards, WithId(id));
      k.Some? && s.db.shards[k.value].state == Cleaning && InUse(s, s.db.shards[k.value].uuid)
    case Write(u) => StateOf(s.db, u) == Some(Standby) || PcOf(s, u).Truncated?
    case _ => false
  }

  /** Every call but the two that can end cleaning. */
  predicate KeepsCleaning(call: Call) {
    !call.CallFinishCleaning? && !(call.CallPatchState? && call.state == Standby)
  }

  /** A server call neither ends cleaning nor makes a used shard standby. */
  lemma ServerRow(db: Db, call: Call, now: int, k: nat)
    requires Inv(db) && KeepsCleaning(call) && k < |db.shards|
    ensures var next := Exec(db, call, now).db.shards;
            && k < |next| && next[k].uuid == db.shards[k].uuid
            && (db.shards[k].state == Cleaning ==> next[k].state == Cleaning)
            && (next[k].state == Standby ==> db.shards[k].state == Standby)
  {
    hide Exec;
    StepRefines(db, call, now);
    assert RowStep(db.shards[k], Exec(db, call, now).db.shards[k]);
    assert RowOk(db.shards[k], db.nextId);
    if db.shards[k].state != Standby {
      BecomesStandby(db, call, now, k);
    }
  }

  /** Rows a step appends carry a uuid no earlier row had. */
  lemma AppendedRow(db: Db, next: Db, k: nat, i: nat)
    requires Inv(next) && i < |db.shards| <= k < |next.shards| && next.shards[i].uuid == db.shards[i].uuid
    ensures next.shards[k].uuid != db.shards[i].uuid
  {
    assert RowsApart(next.shards[i], next.shards[k]);
  }

  lemma KnownStays(db: Db, next: Db, u: string)
    requires RowsStep(db.shards, next.shards) && Any(db.shards, WithUuid(u))
    ensures Any(next.shards, WithUuid(u))
  {
    var i := First(db.shards, WithUuid(u)).value;
    assert RowStep(db.shards[i], next.shards[i]);
    assert Matches(WithUuid(u), next.shards[i]);
  }

  /** The rows move, the agents and the data do not. */
  lemma TablesMove(s: System, next: Db)
    requires Safe(s) && Inv(next) && RowsStep(s.db.shards, next.shards)
    requires forall k :: 0 <= k < |s.db.shards| ==>
               && (s.db.shards[k].state == Cleaning ==> next.shards[k].state == Cleaning)
               && (next.shards[k].state == Standby ==> s.db.shards[k].state == Standby)
    ensures Safe(s.(db := next))
  {
    var t := s.(db := next);
    forall k | 0 <= k < |next.shards|
      ensures RowSafe(t, next.shards[k])
    {
      if k < |s.db.shards| {
        assert RowSafe(s, s.db.shards[k]) && RowStep(s.db.shards[k], next.shards[k]);
      } else {
        NewRowIsUnknown(s, next, k);
      }
    }
    KnownRowsStay(s, t);
    hide Inv, RowsStep, Any;
  }

  lemma NewRowIsUnknown(s: System, next: Db, k: nat)
    requires Inv(next) && RowsStep(s.db.shards, next.shards) && |s.db.shards| <= k < |next.shards|
    ensures !Known(s, next.shards[k].uuid)
  {
    forall i | 0 <= i < |s.db.shards|
      ensures !Matches(WithUuid(next.shards[k].uuid), s.db.shards[i])
    {
      assert RowStep(s.db.shards[i], next.shards[i]);
      AppendedRow(s.db, next, k, i);
    }
  }

  lemma ServerCallSafe(s: System, call: Call, now: int)
    requires Safe(s) && KeepsCleaning(call)
    ensures Safe(s.(db := Exec(s.db, call, now).db))
  {
    hide Exec, Inv;
    StepRefines(s.db, call, now);
    forall k | 0 <= k < |s.db.shards|
      ensures s.db.shards[k].state == Cleaning ==> Exec(s.db, call, now).db.shards[k].state == Cleaning
      ensures Exec(s.db, call, now).db.shards[k].state == Standby ==> s.db.shards[k].state == Standby
    {
      ServerRow(s.db, call, now, k);
    }
    TablesMove(s, Exec(s.db, call, now).db);
  }

  /** Only the agent of `u` moves, to a state that promises nothing. */
  lemma AgentMoves(s: System, u: string, pc: Pc)
    requires Safe(s) && pc != Saw(Cleaning) && !pc.Truncated?
    ensures Safe(s.(pcs := s.pcs[u := pc]))
  {
    var t := s.(pcs := s.pcs[u := pc]);
    forall k | 0 <= k < |s.db.shards|
      ensures RowSafe(t, s.db.shards[k])
    {
      assert RowSafe(s, s.db.shards[k]);
    }
    assert forall v :: Known(t, v) == Known(s, v);
    hide Inv, Known;
  }

  lemma ObserveSafe(s: System, u: string)
    requires Safe(s) && Known(s, u)
    ensures Safe(Next(s, Observe(u)))
  {
    var t := s.(pcs := s.pcs[u := Saw(StateOf(s.db, u).value)]);
    var i := First(s.db.shards, WithUuid(u)).value;
    forall k | 0 <= k < |s.db.shards|
      ensures RowSafe(t, s.db.shards[k])
    {
      assert RowSafe(s, s.db.shards[k]);
      UuidIsUnique(s.db, u, i, k);
    }
    assert forall v :: Known(t, v) == Known(s, v);
    hide Inv;
  }

  lemma UuidIsUnique(db: Db, u: string, i: nat, k: nat)
    requires Inv(db) && i < |db.shards| && k < |db.shards| && db.shards[i].uuid == u
    ensures db.shards[k].uuid == u ==> k == i
  {
    assert i < k ==> RowsApart(db.shards[i], db.shards[k]);
    assert k < i ==> RowsApart(db.shards[k], db.shards[i]);
  }

  lemma WriteSafe(s: System, u: string)
    requires Safe(s) && Known(s, u)
    ensures Safe(s.(loaded := s.loaded + {u})) <==> !Endangers(s, Write(u))
  {
    var t := s.(loaded := s.loaded + {u});
    var i := First(s.db.shards, WithUuid(u)).value;
    if Endangers(s, Write(u)) {
      assert !RowSafe(t, s.db.shards[i]);
    } else {
      forall k | 0 <= k < |s.db.shards|
        ensures RowSafe(t, s.db.shards[k])
      {
        assert RowSafe(s, s.db.shards[k]);
        UuidIsUnique(s.db, u, i, k);
      }
      assert forall v :: Known(t, v) == Known(s, v);
    }
    hide Inv;
  }

  lemma TruncateSafe(s: System, u: string)
    requires Safe(s) && PcOf(s, u) == Saw(Cleaning)
    ensures Safe(s.(loaded := s.loaded - {u}, pcs := s.pcs[u := Truncated]))
  {
    var t := s.(loaded := s.loaded - {u}, pcs := s.pcs[u := Truncated]);
    forall k | 0 <= k < |s.db.shards|
      ensures RowSafe(t, s.db.shards[k])
    {
      assert RowSafe(s, s.db.shards[k]);
    }
    assert Known(s, u);
    assert forall v :: Known(t, v) == Known(s, v);
    hide Inv, Known;
  }

  lemma KnownRowsStay(s: System, t: System)
    requires RowsStep(s.db.shards, t.db.shards)
    ensures forall u :: Known(s, u) ==> Known(t, u)
  {
    forall u | Known(s, u)
      ensures Known(t, u)
    {
      KnownStays(s.db, t.db, u);
    }
  }

  /** Row `k` leaves cleaning for standby: safe exactly when nothing counts on it. */
  lemma LeavesCleaning(s: System, next: Db, k: nat)
    requires Safe(s) && Inv(next) && k < |s.db.shards| == |next.shards| && RowsStep(s.db.shards, next.shards)
    requires s.db.shards[k].state == Cleaning && next.shards[k].state == Standby
    requires forall i :: 0 <= i < |s.db.shards| && i != k ==> next.shards[i] == s.db.shards[i]
    ensures Safe(s.(db := next)) <==> !InUse(s, s.db.shards[k].uuid)
  {
    var t := s.(db := next);
    assert RowStep(s.db.shards[k], next.shards[k]);
    if InUse(s, s.db.shards[k].uuid) {
      assert !RowSafe(t, next.shards[k]);
    } else {
      forall i | 0 <= i < |next.shards|
        ensures RowSafe(t, next.shards[i])
      {
        assert RowSafe(s, s.db.shards[i]);
      }
      KnownRowsStay(s, t);
    }
    hide Inv, RowsStep;
  }

  lemma FinishCallSafe(s: System, u: string, now: int)
    requires Safe(s)
    ensures Safe(s.(db := Exec(s.db, CallFinishCleaning(u), now).db)) <==>
            !Endangers(s, ServerCall(CallFinishCleaning(u), now))
  {
    hide Inv, Exec, First;
    var next := Exec(s.db, CallFinishCleaning(u), now).db;
    StepRefines(s.db, CallFinishCleaning(u), now);
    hide Safe;
    FinishRows(s.db, u, now);
    if StateOf(s.db, u) == Some(Cleaning) {
      LeavesCleaning(s, next, First(s.db.shards, WithUuid(u)).value);
    } else {
      assert next == s.db;
    }
    hide RowsStep;
  }

  /** FinishCleaning recycles the shard's row if it is in cleaning, and touches nothing else. */
  lemma FinishRows(db: Db, u: string, now: int)
    requires Inv(db)
    ensures var next := Exec(db, CallFinishCleaning(u), now).db;
            if StateOf(db, u) == Some(Cleaning)
            then next.shards == UpdateAt(db.shards, First(db.shards, WithUuid(u)).value, Recycle)
            else next == db
  {
    var k := First(db.shards, WithUuid(u));
    var next := Exec(db, CallFinishCleaning(u), now).db;
    if StateOf(db, u) == Some(Cleaning) {
      assert Matches(WithUuidAndState(u, Cleaning), db.shards[k.value]);
      forall i | 0 <= i < |db.shards|
        ensures next.shards[i] == UpdateAt(db.shards, k.value, Recycle)[i]
      {
        UuidIsUnique(db, u, k.value, i);
      }
    } else {
      forall i | 0 <= i < |db.shards|
        ensures !Matches(WithUuidAndState(u, Cleaning), db.shards[i])
      {
        if k.Some? { UuidIsUnique(db, u, k.value, i); }
      }
    }
    hide Inv;
  }

  lemma PatchCallSafe(s: System, id: int, now: int)
    requires Safe(s)
    ensures Safe(s.(db := Exec(s.db, CallPatchState(id, Standby), now).db))
            <==> !Endangers(s, ServerCall(CallPatchState(id, Standby), now))
  {
    hide Inv, Exec;
    var next := Exec(s.db, CallPatchState(id, Standby), now).db;
    StepRefines(s.db, CallPatchState(id, Standby), now);
    PatchRows(s.db, id, now);
    var k := First(s.db.shards, WithId(id));
    if k.Some? && s.db.shards[k.value].state == Cleaning {
      LeavesCleaning(s, next, k.value);
    } else {
      assert next == s.db;
    }
    hide Safe, First, RowsStep;
  }

  /** A patch to standby succeeds exactly on a row in cleaning, and changes that row only. */
  lemma PatchRows(db: Db, id: int, now: int)
    requires Inv(db)
    ensures var k := First(db.shards, WithId(id));
            var next := Exec(db, CallPatchState(id, Standby), now).db;
            if k.Some? && db.shards[k.value].state == Cleaning
            then next.shards == UpdateAt(db.shards, k.value, SetState(Standby))
            else next == db
  {
    PatchOutcome(db, id, Standby);
    var k := First(db.shards, WithId(id));
    if k.Some? {
      assert RowOk(db.shards[k.value], db.nextId);
    }
    hide Inv, OneActivePerBucket, First;
  }

  /** The agent's own report: its shard is in cleaning, empty, and nothing else counts on it. */
  lemma ReportCleanedSafe(s: System, u: string)
    requires Safe(s) && PcOf(s, u).Truncated?
    ensures Safe(Next(s, ReportCleaned(u)))
  {
    hide Exec, Inv;
    var t := s.(pcs := s.pcs[u := Idle]);
    AgentMoves(s, u, Idle);
    var k := First(s.db.shards, WithUuid(u));
    assert Known(s, u);
    assert RowSafe(s, s.db.shards[k.value]);
    FinishCallSafe(t, u, 0);
    hide Safe, First;
  }

  /** A step keeps recycling safe exactly when it is not one of those named by Endangers. */
  lemma SafeStep(s: System, a: Action)
    requires Safe(s) && Enabled(s, a)
    ensures Safe(Next(s, a)) <==> !Endangers(s, a)
  {
    hide Safe, Exec, StateOf, Known;
    match a
    case ServerCall(CallFinishCleaning(u), now) => FinishCallSafe(s, u, now);
    case ServerCall(CallPatchState(id, Standby), now) => PatchCallSafe(s, id, now);
    case ServerCall(call, now) => ServerCallSafe(s, call, now);
    case Write(u) => WriteSafe(s, u);
    case ReportStats(u, bytes, now) =>
      ServerCallSafe(s, CallUpdateStats(u, bytes), now);
      AgentMoves(s.(db := Exec(s.db, CallUpdateStats(u, bytes), now).db), u, Reported);
    case Observe(u) => ObserveSafe(s, u);
    case Truncate(u) => TruncateSafe(s, u);
    case ReportCleaned(u) => ReportCleanedSafe(s, u);
    case Drain(u) => AgentMoves(s, u, Drained);
    case ReportDrainComplete(u) =>
      ServerCallSafe(s, CallMarkDrainReady(u), 0);
      AgentMoves(s.(db := Exec(s.db, CallMarkDrainReady(u), 0).db), u, Idle);
    case GiveUp(u) => AgentMoves(s, u, Idle);
  }

  // ---- whole traces --------------------------------------------------------------------------------------

  datatype Trace = Trace(states: seq<System>, actions: seq<Action>) {
    predicate Valid() {
      && |states| == |actions| + 1
      && states[0] == System(EMPTY, map[], {})
      && forall i :: 0 <= i < |actions| ==>
           Enabled(states[i], actions[i]) && states[i + 1] == Next(states[i], actions[i])
    }

    /** No step of the trace is one that spoils recycling. */
    predicate Guarded()
      requires Valid()
    {
      forall i :: 0 <= i < |actions| ==> !Endangers(states[i], actions[i])
    }
  }

  lemma {:induction false} AlwaysSafe(t: Trace, i: nat)
    requires t.Valid() && t.Guarded() && i < |t.states|
    ensures Safe(t.states[i])
  {
    hide Next;
    if i > 0 {
      AlwaysSafe(t, i - 1);
      assert !Endangers(t.states[i - 1], t.actions[i - 1]);
      SafeStep(t.states[i - 1], t.actions[i - 1]);
    }
    hide Endangers, Enabled;
  }

  /** Truncation runs only while the shard's stored state is cleaning, however the steps interleave. */
  lemma TruncatesOnlyWhileCleaning(t: Trace, i: nat, u: string)
    requires t.Valid() && t.Guarded() && i < |t.actions| && t.actions[i] == Truncate(u)
    ensures StateOf(t.states[i].db, u) == Some(Cleaning)
  {
    AlwaysSafe(t, i);
    var s := t.states[i];
    assert Enabled(s, t.actions[i]);
    assert u in s.pcs && Known(s, u);
    var k := First(s.db.shards, WithUuid(u)).value;
    assert RowSafe(s, s.db.shards[k]);
    hide Next, Inv, Endangers;
  }

  /** Every shard in the standby pool is empty, in every state of a guarded trace. */
  lemma StandbyPoolIsEmpty(t: Trace, i: nat, k: nat)
    requires t.Valid() && t.Guarded() && i < |t.states| && k < |t.states[i].db.shards|
    requires Matches(StandbyPool, t.states[i].db.shards[k])
    ensures t.states[i].db.shards[k].uuid !in t.states[i].loaded
  {
    hide Next, Endangers;
    AlwaysSafe(t, i);
    assert RowSafe(t.states[i], t.states[i].db.shards[k]);
  }

  /** Data is removed by truncation only, and only from a shard in cleaning. */
  lemma DataLostOnlyInCleaning(t: Trace, i: nat, u: string)
    requires t.Valid() && t.Guarded() && i < |t.actions| && u in t.states[i].loaded && u !in t.states[i + 1].loaded
    ensures t.actions[i] == Truncate(u) && StateOf(t.states[i].db, u) == Some(Cleaning)
  {
    hide Endangers, Enabled;
    assert t.states[i + 1] == Next(t.states[i], t.actions[i]);
    TruncatesOnlyWhileCleaning(t, i, u);
  }

  /** Discipline a deployment can check without looking at agents: who ends cleaning, and where writers write. */
  predicate Disciplined(s: System, a: Action) {
    match a
    case ServerCall(call, _) => KeepsCleaning(call)
    case Write(u) => StateOf(s.db, u) != Some(Standby) && StateOf(s.db, u) != Some(Cleaning)
    case _ => true
  }

  lemma DisciplineIsHarmless(s: System, a: Action)
    requires Safe(s) && Enabled(s, a) && Disciplined(s, a)
    ensures !Endangers(s, a)
  {
    if a.Write? {
      var k := First(s.db.shards, WithUuid(a.uuid)).value;
      assert RowSafe(s, s.db.shards[k]);
    }
    hide Inv;
  }

  /** Leaving the end of cleaning to the agents, and writing to no shard in cleaning or in the pool, is enough. */
  lemma {:induction false} DisciplineSuffices(t: Trace, i: nat)
    requires t.Valid() && i < |t.states|
    requires forall j :: 0 <= j < |t.actions| ==> Disciplined(t.states[j], t.actions[j])
    ensures Safe(t.states[i]) && (i < |t.actions| ==> !Endangers(t.states[i], t.actions[i]))
  {
    hide Next, Disciplined;
    if i > 0 {
      DisciplineSuffices(t, i - 1);
      SafeStep(t.states[i - 1], t.actions[i - 1]);
    }
    hide Endangers, Enabled, Safe;
    if i == 0 {
      EmptyIsSafe();
    }
    if i < |t.actions| {
      DisciplineIsHarmless(t.states[i], t.actions[i]);
    }
  }

  lemma EmptyIsSafe()
    ensures Safe(System(EMPTY, map[], {}))
  {
  }
}

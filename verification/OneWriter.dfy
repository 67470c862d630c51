/**
 One writer per bucket: which calls keep it with the unique index in place, which keep it without, and that routine
 runs never need the index.
 */
module OneWriter {
  import opened Common
  import opened Fsm
  import opened Table
  import opened Transactions
  import opened Lifecycle
  import opened Runs

  /** A data shard that may still take writes for a bucket. */
  predicate IsWriter(r: Shard) {
    r.role == Data && r.bucket.Some? && (r.state == Active || r.state == Draining)
  }

  predicate Rivals(r: Shard, s: Shard) {
    IsWriter(r) && IsWriter(s) && r.bucket == s.bucket
  }

  predicate OneWriterPerBucket(rows: seq<Shard>) {
    forall i, j :: 0 <= i < |rows| && 0 <= j < |rows| && i != j ==> !Rivals(rows[i], rows[j])
  }

  /** The guard of the two calls that can create a second writer: the bucket's shard is still draining. */
  predicate Breaks(db: Db, call: Call) {
    match call
    case CallPromote(b) => Any(db.shards, StandbyPool) && Any(db.shards, DrainingIn(b))
    case CallPatchState(id, Active) =>
      var k := First(db.shards, WithId(id));
      && k.Some? && db.shards[k.value].role == Data && db.shards[k.value].state == Standby
      && db.shards[k.value].bucket.Some? && Any(db.shards, DrainingIn(db.shards[k.value].bucket.value))
    case _ => false
  }

  // ---- the shapes a step can take --------------------------------------------------------------

  /** No row becomes a writer. */
  lemma NoNewWriters(rows: seq<Shard>, next: seq<Shard>)
    requires OneWriterPerBucket(rows) && |rows| <= |next|
    requires forall k :: 0 <= k < |next| && IsWriter(next[k]) ==>
               k < |rows| && IsWriter(rows[k]) && rows[k].bucket == next[k].bucket
    ensures OneWriterPerBucket(next)
  {
    forall i, j | 0 <= i < |next| && 0 <= j < |next| && i != j
      ensures !Rivals(next[i], next[j])
    {
      if IsWriter(next[i]) && IsWriter(next[j]) {
        assert !Rivals(rows[i], rows[j]);
      }
    }
  }

  /** Row `k`, no writer before, becomes a writer of `b`; the other rows stay. */
  lemma NewWriter(rows: seq<Shard>, k: nat, r: Shard, b: string)
    requires OneWriterPerBucket(rows) && k < |rows| && !IsWriter(rows[k])
    requires IsWriter(r) && r.bucket == Some(b)
    ensures OneWriterPerBucket(rows[k := r]) <==> !Any(rows, WriterIn(b))
  {
    var next := rows[k := r];
    var w := First(rows, WriterIn(b));
    if w.Some? {
      assert Rivals(next[w.value], next[k]);
    } else {
      forall i, j | 0 <= i < |next| && 0 <= j < |next| && i != j
        ensures !Rivals(next[i], next[j])
      {
        assert !Matches(WriterIn(b), rows[i]) && !Matches(WriterIn(b), rows[j]);
        assert !Rivals(rows[i], rows[j]);
      }
    }
  }

  /** The writers of a bucket are its active and its draining shards. */
  lemma WriterCases(rows: seq<Shard>, b: string)
    ensures Any(rows, WriterIn(b)) <==> Any(rows, ActiveIn(b)) || Any(rows, DrainingIn(b))
  {
    var w, a, d := First(rows, WriterIn(b)), First(rows, ActiveIn(b)), First(rows, DrainingIn(b));
    if w.Some? {
      assert Matches(ActiveIn(b), rows[w.value]) || Matches(DrainingIn(b), rows[w.value]);
    }
    if a.Some? { assert Matches(WriterIn(b), rows[a.value]); }
    if d.Some? { assert Matches(WriterIn(b), rows[d.value]); }
  }

  /** Under one writer per bucket, a draining shard leaves no room for an active one. */
  lemma DrainingExcludesActive(rows: seq<Shard>, b: string)
    requires OneWriterPerBucket(rows) && Any(rows, DrainingIn(b))
    ensures !Any(rows, ActiveIn(b))
  {
    var d, a := First(rows, DrainingIn(b)), First(rows, ActiveIn(b));
    if a.Some? {
      assert Rivals(rows[a.value], rows[d.value]);
      assert false;
    }
  }

  /** Activating a non-writer in `b` passes the unique index exactly when `b` has no active shard. */
  lemma IndexOnActivation(rows: seq<Shard>, k: nat, r: Shard, b: string)
    requires OneActivePerBucket(rows) && k < |rows| && !IsWriter(rows[k])
    requires r.role == Data && r.state == Active && r.bucket == Some(b)
    ensures OneActivePerBucket(rows[k := r]) <==> !Any(rows, ActiveIn(b))
  {
    var next := rows[k := r];
    var a := First(rows, ActiveIn(b));
    if a.Some? {
      assert SameActiveBucket(next[a.value], next[k]) && SameActiveBucket(next[k], next[a.value]);
    } else {
      forall i, j | 0 <= i < j < |next|
        ensures !SameActiveBucket(next[i], next[j])
      {
        assert !Matches(ActiveIn(b), rows[i]) && !Matches(ActiveIn(b), rows[j]);
        assert !SameActiveBucket(rows[i], rows[j]);
      }
    }
  }

  /** A change that activates no row passes the unique index. */
  lemma IndexWithoutActivation(rows: seq<Shard>, k: nat, r: Shard)
    requires OneActivePerBucket(rows) && k < |rows|
    requires r.role == Error || r.state != Active || r.bucket.None?
    ensures OneActivePerBucket(rows[k := r])
  {
    var next := rows[k := r];
    forall i, j | 0 <= i < j < |next|
      ensures !SameActiveBucket(next[i], next[j])
    {
      assert !SameActiveBucket(rows[i], rows[j]);
    }
  }

  /** The patch would make the row the active of its bucket. */
  predicate Activates(r: Shard, state: State) {
    r.role == Data && state == Active && r.bucket.Some?
  }

  /** Why a manual patch is refused: no such shard, no such edge, or another active in the bucket; never otherwise. */
  lemma PatchOutcome(db: Db, id: int, state: State)
    requires Inv(db)
    ensures var k := First(db.shards, WithId(id));
            PatchState(db, id, state).outcome ==
            if k.None? then NotFound
            else
              var r := db.shards[k.value];
              if !CanTransition(r.role, r.state, state) then InvalidArgument
              else if Activates(r, state) && Any(db.shards, ActiveIn(r.bucket.value)) then UniqueViolation
              else Done
  {
    hide First;
    var k := First(db.shards, WithId(id));
    if k.Some? && CanTransition(db.shards[k.value].role, db.shards[k.value].state, state) {
      var r := db.shards[k.value];
      if Activates(r, state) {
        IndexOnActivation(db.shards, k.value, Assigned(SetState(state), r), r.bucket.value);
      } else {
        IndexWithoutActivation(db.shards, k.value, Assigned(SetState(state), r));
      }
    }
    hide OneActivePerBucket, Inv, Any;
  }

  // ---- each call -------------------------------------------------------------------------------

  lemma ActivationStep(db: Db, k: nat, a: Assign, b: string, promoted: Option<nat>)
    requires Inv(db) && OneWriterPerBucket(db.shards) && k < |db.shards|
    requires !IsWriter(db.shards[k]) && db.shards[k].role == Data
    requires Assigned(a, db.shards[k]).state == Active && Assigned(a, db.shards[k]).bucket == Some(b)
    ensures OneWriterPerBucket(Commit(db, UpdateAt(db.shards, k, a), promoted).db.shards) <==>
            !Any(db.shards, DrainingIn(b))
    ensures !Any(db.shards, WriterIn(b)) ==> Commit(db, UpdateAt(db.shards, k, a), promoted).outcome == Done
  {
    hide First;
    var r := Assigned(a, db.shards[k]);
    assert r.role == Data;
    IndexOnActivation(db.shards, k, r, b);
    NewWriter(db.shards, k, r, b);
    WriterCases(db.shards, b);
    if Any(db.shards, DrainingIn(b)) {
      DrainingExcludesActive(db.shards, b);
    }
    hide Inv, OneWriterPerBucket, OneActivePerBucket, Any;
  }

  lemma PromoteStep(db: Db, b: string, now: int)
    requires Inv(db) && OneWriterPerBucket(db.shards)
    ensures OneWriterPerBucket(PromoteStandby(db, b, now).db.shards) <==> !Breaks(db, CallPromote(b))
    ensures !Any(db.shards, WriterIn(b)) ==> PromoteStandby(db, b, now).outcome != UniqueViolation
  {
    var k := First(db.shards, StandbyPool);
    if k.Some? {
      ActivationStep(db, k.value, ToActive(b, now), b, k);
    }
    hide OneWriterPerBucket;
  }

  lemma AutoPromoteStep(db: Db, b: string, cutoff: int, now: int)
    requires Inv(db) && OneWriterPerBucket(db.shards)
    ensures OneWriterPerBucket(AutoPromote(db, b, cutoff, now).db.shards)
    ensures AutoPromote(db, b, cutoff, now).outcome != UniqueViolation
  {
    hide PromoteStandby, OneWriterPerBucket;
    PromoteStep(db, b, now);
    WriterCases(db.shards, b);
  }

  /** Sealing the only writer of a bucket makes room for exactly one promotion into it. */
  lemma SealAndPromoteStep(db: Db, i: nat, seal: Assign, b: string, now: int)
    requires Inv(db) && OneWriterPerBucket(db.shards) && i < |db.shards|
    requires Matches(WriterIn(b), db.shards[i]) && (seal.ToSealed? || seal.ToSealedAfterDrain?)
    ensures OneWriterPerBucket(SealAndPromote(db, i, seal, b, now).db.shards)
    ensures SealAndPromote(db, i, seal, b, now).outcome == Done
  {
    var rows := UpdateAt(db.shards, i, seal);
    NoNewWriters(db.shards, rows);
    NoNewActives(db.shards, rows);
    forall j | 0 <= j < |rows|
      ensures !Matches(WriterIn(b), rows[j])
    {
      if j != i { assert !Rivals(db.shards[i], db.shards[j]); }
    }
    assert !Any(rows, WriterIn(b));
    WriterCases(rows, b);
    var k := First(rows, StandbyPool);
    if k.Some? {
      var r := Assigned(ToActive(b, now), rows[k.value]);
      NewWriter(rows, k.value, r, b);
      IndexOnActivation(rows, k.value, r, b);
    }
    hide OneWriterPerBucket, OneActivePerBucket, Inv, Any;
  }

  lemma SealRotateStep(db: Db, b: string, now: int)
    requires Inv(db) && OneWriterPerBucket(db.shards)
    ensures OneWriterPerBucket(SealRotate(db, b, now).db.shards)
    ensures SealRotate(db, b, now).outcome == if Any(db.shards, ActiveIn(b)) then Done else NotFound
  {
    var i := First(db.shards, ActiveIn(b));
    if i.Some? {
      SealAndPromoteStep(db, i.value, ToSealed, b, now);
    }
    hide SealAndPromote, OneWriterPerBucket;
  }

  lemma CompleteDrainSealStep(db: Db, b: string, now: int)
    requires Inv(db) && OneWriterPerBucket(db.shards)
    ensures OneWriterPerBucket(CompleteDrainSeal(db, b, now).db.shards)
    ensures CompleteDrainSeal(db, b, now).outcome == if Any(db.shards, DrainingIn(b)) then Done else NotFound
  {
    var i := First(db.shards, DrainingIn(b));
    if i.Some? {
      SealAndPromoteStep(db, i.value, ToSealedAfterDrain, b, now);
    }
    hide SealAndPromote, OneWriterPerBucket;
  }

  lemma BulkStep(db: Db, w: Where, a: Assign)
    requires Inv(db) && OneWriterPerBucket(db.shards) && Lawful(w, a) && !a.ToActive?
    ensures OneWriterPerBucket(Update(db.shards, w, a))
  {
    NoNewWriters(db.shards, Update(db.shards, w, a));
  }

  lemma PatchStep(db: Db, id: int, state: State)
    requires Inv(db) && OneWriterPerBucket(db.shards)
    ensures OneWriterPerBucket(PatchState(db, id, state).db.shards) <==> !Breaks(db, CallPatchState(id, state))
  {
    var k := First(db.shards, WithId(id));
    if k.Some? && CanTransition(db.shards[k.value].role, db.shards[k.value].state, state) {
      var r := db.shards[k.value];
      assert RowOk(r, db.nextId);
      if r.role == Data && state == Active && r.bucket.Some? {
        ActivationStep(db, k.value, SetState(Active), r.bucket.value, None);
      } else {
        NoNewWriters(db.shards, UpdateAt(db.shards, k.value, SetState(state)));
      }
    }
    hide OneWriterPerBucket, OneActivePerBucket, Inv;
  }

  lemma RegisterStep(db: Db, uuid: string, role: Role, dsn: string, url: string, startup: State, now: int)
    requires Inv(db) && OneWriterPerBucket(db.shards)
    ensures OneWriterPerBucket(RegisterShard(db, uuid, role, dsn, url, startup, now).db.shards)
  {
    NoNewWriters(db.shards, RegisterShard(db, uuid, role, dsn, url, startup, now).db.shards);
  }

  /** A call keeps one writer per bucket exactly when its guard does not hold. */
  lemma OneWriterStep(db: Db, call: Call, now: int)
    requires Inv(db) && OneWriterPerBucket(db.shards)
    ensures OneWriterPerBucket(Exec(db, call, now).db.shards) <==> !Breaks(db, call)
  {
    hide Inv, OneWriterPerBucket, Update, SealRotate, CompleteDrainSeal, PromoteStandby, AutoPromote, PatchState,
        RegisterShard;
    match call
    case CallBootstrap(_) =>
    case CallRegister(uuid, role, dsn, url, startup) => RegisterStep(db, uuid, role, dsn, url, startup, now);
    case CallPromote(b) => PromoteStep(db, b, now);
    case CallAutoPromote(b, cutoff) => AutoPromoteStep(db, b, cutoff, now);
    case CallSealRotate(b) => SealRotateStep(db, b, now);
    case CallCompleteDrainSeal(b) => CompleteDrainSealStep(db, b, now);
    case CallPatchState(id, state) => PatchStep(db, id, state);
    case CallBeginDrain(b) => BulkStep(db, ActiveIn(b), ToDraining(now));
    case CallMarkDrainReady(uuid) => BulkStep(db, WithUuidAndState(uuid, Draining), SetDrainReady);
    case CallMarkCleaning(b) => BulkStep(db, SealedIn(b), ToCleaning);
    case CallFinishCleaning(uuid) => BulkStep(db, WithUuidAndState(uuid, Cleaning), Recycle);
    case CallUpdateStats(uuid, bytes) => BulkStep(db, WithUuid(uuid), SetStats(bytes, now));
  }

  // ---- whole runs ------------------------------------------------------------------------------

  /** No event of the run meets a guard of Breaks. */
  ghost predicate Guarded(run: Run)
    requires run.Valid()
  {
    forall i :: 0 <= i < |run.events| ==> !Breaks(run.states[i], run.events[i].call)
  }

  /** In every state of a guarded run each bucket has at most one active or draining data shard. */
  lemma {:induction false} OneWriterAlways(run: Run, i: nat)
    requires run.FromEmpty() && Guarded(run) && i < |run.states|
    ensures OneWriterPerBucket(run.states[i].shards)
  {
    hide Exec;
    if i > 0 {
      OneWriterAlways(run, i - 1);
      AlwaysInv(run, i - 1);
      assert !Breaks(run.states[i - 1], run.events[i - 1].call);
      OneWriterStep(run.states[i - 1], run.events[i - 1].call, run.events[i - 1].now);
    }
  }

  /** Calls the server makes on its own: promotion only inside auto-promotion, no manual activation. */
  predicate Routine(call: Call) {
    !call.CallPromote? && !(call.CallPatchState? && call.state == Active)
  }

  /** A routine call never trips the unique index while each bucket has one writer. */
  lemma IndexIdle(db: Db, call: Call, now: int)
    requires Inv(db) && OneWriterPerBucket(db.shards) && Routine(call)
    ensures Exec(db, call, now).outcome != UniqueViolation
  {
    hide Inv, OneWriterPerBucket, SealRotate, CompleteDrainSeal, AutoPromote, PatchState, Update, First;
    if call.CallSealRotate? {
      SealRotateStep(db, call.b, now);
    } else if call.CallCompleteDrainSeal? {
      CompleteDrainSealStep(db, call.b, now);
    } else if call.CallAutoPromote? {
      AutoPromoteStep(db, call.b, call.cutoff, now);
    } else if call.CallPatchState? {
      PatchOutcome(db, call.id, call.state);
    }
  }

  // ---- without the unique index ------------------------------------------------------------------

  /** A step that does not trip the index is the same step without it. */
  lemma IndexUnused(db: Db, call: Call, now: int)
    requires Exec(db, call, now).outcome != UniqueViolation
    ensures Exec(db, call, now, false) == Exec(db, call, now)
  {
    hide OneActivePerBucket, First, Update;
  }

  /** Without the index, activating a shard in a bucket that has any writer at all breaks the rule. */
  predicate BreaksWithoutIndex(db: Db, call: Call) {
    match call
    case CallPromote(b) => Any(db.shards, StandbyPool) && Any(db.shards, WriterIn(b))
    case CallPatchState(id, Active) =>
      var k := First(db.shards, WithId(id));
      && k.Some? && db.shards[k.value].role == Data && db.shards[k.value].state == Standby
      && db.shards[k.value].bucket.Some? && Any(db.shards, WriterIn(db.shards[k.value].bucket.value))
    case _ => false
  }

  /** The same question as OneWriterStep, with the code alone: no index to roll anything back. */
  lemma OneWriterStepWithoutIndex(db: Db, call: Call, now: int)
    requires Inv(db) && OneWriterPerBucket(db.shards)
    ensures OneWriterPerBucket(Exec(db, call, now, false).db.shards) <==> !BreaksWithoutIndex(db, call)
  {
    hide Inv, OneWriterPerBucket, Exec;
    if call.CallPromote? {
      PromoteWithoutIndex(db, call.b, now);
    } else if call.CallPatchState? && call.state == Active {
      ActivateWithoutIndex(db, call.id, now);
    } else {
      OneWriterStep(db, call, now);
      IndexIdle(db, call, now);
      IndexUnused(db, call, now);
    }
  }

  lemma PromoteWithoutIndex(db: Db, b: string, now: int)
    requires OneWriterPerBucket(db.shards)
    ensures OneWriterPerBucket(Exec(db, CallPromote(b), now, false).db.shards) <==>
            !BreaksWithoutIndex(db, CallPromote(b))
  {
    hide OneWriterPerBucket;
    var k := First(db.shards, StandbyPool);
    if k.Some? {
      NewWriter(db.shards, k.value, Assigned(ToActive(b, now), db.shards[k.value]), b);
    }
  }

  lemma ActivateWithoutIndex(db: Db, id: int, now: int)
    requires Inv(db) && OneWriterPerBucket(db.shards)
    ensures OneWriterPerBucket(Exec(db, CallPatchState(id, Active), now, false).db.shards)
            <==> !BreaksWithoutIndex(db, CallPatchState(id, Active))
  {
    hide First;
    var k := First(db.shards, WithId(id));
    if k.Some? && CanTransition(db.shards[k.value].role, db.shards[k.value].state, Active) {
      var r := db.shards[k.value];
      if r.role == Data && r.bucket.Some? {
        NewWriter(db.shards, k.value, Assigned(SetState(Active), r), r.bucket.value);
      } else {
        NoNewWriters(db.shards, UpdateAt(db.shards, k.value, SetState(Active)));
      }
    }
    hide OneWriterPerBucket, Inv;
  }

  /** A run of a store that has no unique index. */
  ghost predicate WithoutIndex(run: Run) {
    && |run.states| == |run.events| + 1
    && run.states[0] == EMPTY
    && forall i :: 0 <= i < |run.events| ==>
         run.states[i + 1] == Exec(run.states[i], run.events[i].call, run.events[i].now, false).db
  }

  ghost predicate AllRoutine(run: Run) {
    forall i :: 0 <= i < |run.events| ==> Routine(run.events[i].call)
  }

  /** The code alone keeps one writer per bucket: in routine runs the index is absent and nothing is lost. */
  lemma {:induction false} RoutineRunsKeepOneWriter(run: Run, i: nat)
    requires WithoutIndex(run) && AllRoutine(run) && i < |run.states|
    ensures Inv(run.states[i]) && OneWriterPerBucket(run.states[i].shards)
  {
    hide Exec, Inv, OneWriterPerBucket;
    if i == 0 {
      EmptyKeeps();
    } else {
      var db, call, now := run.states[i - 1], run.events[i - 1].call, run.events[i - 1].now;
      RoutineRunsKeepOneWriter(run, i - 1);
      assert Routine(call);
      OneWriterStepWithoutIndex(db, call, now);
      IndexIdle(db, call, now);
      IndexUnused(db, call, now);
      StepRefines(db, call, now);
    }
  }

  lemma EmptyKeeps()
    ensures Inv(EMPTY) && OneWriterPerBucket(EMPTY.shards)
  {
  }

  /** Routine runs are the same with and without the index, so it never rejects one of their calls. */
  lemma RoutineRunsNeedNoIndex(run: Run)
    requires AllRoutine(run)
    ensures WithoutIndex(run) <==> run.FromEmpty()
    ensures run.FromEmpty() ==> forall i :: 0 <= i < |run.events| ==>
              Exec(run.states[i], run.events[i].call, run.events[i].now).outcome != UniqueViolation
  {
    hide Exec, Inv, OneWriterPerBucket;
    if WithoutIndex(run) || run.FromEmpty() {
      forall i | 0 <= i < |run.events|
        ensures Exec(run.states[i], run.events[i].call, run.events[i].now).outcome != UniqueViolation
        ensures Exec(run.states[i], run.events[i].call, run.events[i].now, false)
                == Exec(run.states[i], run.events[i].call, run.events[i].now)
      {
        RoutineStateIsGood(run, i);
        assert Routine(run.events[i].call);
        IndexIdle(run.states[i], run.events[i].call, run.events[i].now);
        IndexUnused(run.states[i], run.events[i].call, run.events[i].now);
      }
    }
  }

  lemma RoutineStateIsGood(run: Run, i: nat)
    requires (WithoutIndex(run) || run.FromEmpty()) && AllRoutine(run) && i < |run.events|
    ensures Inv(run.states[i]) && OneWriterPerBucket(run.states[i].shards)
  {
    hide Exec, Inv, OneWriterPerBucket;
    if WithoutIndex(run) {
      RoutineRunsKeepOneWriter(run, i);
    } else {
      AlwaysInv(run, i);
      assert Guarded(run) by {
        assert forall j :: 0 <= j < |run.events| && Routine(run.events[j].call) ==>
            !Breaks(run.states[j], run.events[j].call);
      }
      OneWriterAlways(run, i);
    }
  }
}

/** Properties of whole runs of store calls, manual state patches included. */
module Runs {
  import opened Common
  import opened Fsm
  import opened Table
  import opened Transactions
  import opened Lifecycle

  /** Every reachable state satisfies the invariant. */
  lemma {:induction false} AlwaysInv(run: Run, i: nat)
    requires run.FromEmpty() && i < |run.states|
    ensures Inv(run.states[i])
  {
    hide Exec;
    if i > 0 {
      AlwaysInv(run, i - 1);
      StepRefines(run.states[i - 1], run.events[i - 1].call, run.events[i - 1].now);
    }
  }

  /** One step of a run, seen from one row. */
  lemma RowInStep(run: Run, i: nat, k: nat)
    requires run.FromEmpty() && i < |run.events| && k < |run.states[i].shards|
    ensures k < |run.states[i + 1].shards|
    ensures RowStep(run.states[i].shards[k], run.states[i + 1].shards[k])
  {
    hide Exec;
    AlwaysInv(run, i);
    StepRefines(run.states[i], run.events[i].call, run.events[i].now);
  }

  /** Rows stay where they are and keep id, uuid and role for the rest of the run; their versions never drop. */
  lemma {:induction false} RowIdentity(run: Run, i: nat, j: nat, k: nat)
    requires run.FromEmpty() && i <= j < |run.states| && k < |run.states[i].shards|
    ensures k < |run.states[j].shards|
    ensures var r, s := run.states[i].shards[k], run.states[j].shards[k];
            s.id == r.id && s.uuid == r.uuid && s.role == r.role && s.version >= r.version
    decreases j
  {
    hide Exec;
    if i < j {
      RowIdentity(run, i, j - 1, k);
      RowInStep(run, j - 1, k);
    }
  }

  /** A row version names the row's state and bucket: equal versions in a run mean neither changed. */
  lemma {:induction false} RowVersionIsKey(run: Run, i: nat, j: nat, k: nat)
    requires run.FromEmpty() && i <= j < |run.states| && k < |run.states[i].shards|
    requires k < |run.states[j].shards| && run.states[i].shards[k].version == run.states[j].shards[k].version
    ensures run.states[i].shards[k].state == run.states[j].shards[k].state
    ensures run.states[i].shards[k].bucket == run.states[j].shards[k].bucket
    decreases j
  {
    hide Exec;
    if i < j {
      RowIdentity(run, i, j - 1, k);
      RowInStep(run, j - 1, k);
      RowVersionIsKey(run, i, j - 1, k);
    }
  }

  /** At most one error shard at any time; it is active and holds no bucket. */
  lemma ErrorShardAlwaysWritable(run: Run, i: nat, k: nat)
    requires run.FromEmpty() && i < |run.states| && k < |run.states[i].shards|
    requires run.states[i].shards[k].role == Error
    ensures run.states[i].shards[k].state == Active && run.states[i].shards[k].bucket.None?
    ensures forall j :: 0 <= j < |run.states[i].shards| && j != k ==> run.states[i].shards[j].role == Data
  {
    AlwaysInv(run, i);
    var rows := run.states[i].shards;
    assert RowOk(rows[k], run.states[i].nextId);
    forall j | 0 <= j < |rows| && j != k
      ensures rows[j].role == Data
    {
      assert if j < k then RowsApart(rows[j], rows[k]) else RowsApart(rows[k], rows[j]);
    }
  }

  // ---- topology_version ---------------------------------------------------------------------

  lemma QuietKeepsRoutes(db: Db, w: Where, a: Assign)
    requires a.SetDrainReady? || a.SetStats?
    ensures Routes(QuietUpdate(db, w, a).db) == Routes(db)
  {
  }

  /**
   The version never drops; after bootstrap the config is fixed, and a step that changes routes raises the version.
   */
  lemma VersionStep(db: Db, call: Call, now: int)
    requires Inv(db)
    ensures Version(Exec(db, call, now).db) >= Version(db)
    ensures db.config.Some? ==>
              && Exec(db, call, now).db.config.Some?
              && Exec(db, call, now).db.config.value.config == db.config.value.config
    ensures Routes(Exec(db, call, now).db) != Routes(db) ==>
              (Version(Exec(db, call, now).db) > Version(db) <==> db.config.Some?)
  {
    if call.CallMarkDrainReady? {
      QuietKeepsRoutes(db, WithUuidAndState(call.uuid, Draining), SetDrainReady);
    } else if call.CallUpdateStats? {
      QuietKeepsRoutes(db, WithUuid(call.uuid), SetStats(call.bytes, now));
    } else if !call.CallBootstrap? {
      BumpOrNothing(db, call, now);
      hide Exec, Routes;
    }
  }

  /** Every other call bumps the version when it commits, and otherwise changes nothing. */
  lemma BumpOrNothing(db: Db, call: Call, now: int)
    requires !call.CallBootstrap? && !call.CallMarkDrainReady? && !call.CallUpdateStats?
    ensures Exec(db, call, now).db == db || Exec(db, call, now).db.config == Bump(db.config)
  {
    hide Update, UpdateAt, First, OneActivePerBucket;
  }

  /** After bootstrap topology_version is a sound cache key: equal versions mean equal routes for every shard. */
  lemma {:induction false} VersionIsCacheKey(run: Run, i: nat, j: nat)
    requires run.FromEmpty() && i <= j < |run.states|
    requires run.states[i].config.Some? && Version(run.states[i]) == Version(run.states[j])
    ensures Routes(run.states[i]) == Routes(run.states[j])
    decreases j
  {
    hide Exec, Inv, Routes;
    if i < j {
      VersionsAscend(run, i, j - 1);
      ConfigFixed(run, i, j - 1);
      AlwaysInv(run, j - 1);
      VersionStep(run.states[j - 1], run.events[j - 1].call, run.events[j - 1].now);
      VersionIsCacheKey(run, i, j - 1);
    }
  }

  lemma {:induction false} VersionsAscend(run: Run, i: nat, j: nat)
    requires run.FromEmpty() && i <= j < |run.states|
    ensures Version(run.states[i]) <= Version(run.states[j])
    decreases j
  {
    hide Exec;
    if i < j {
      VersionsAscend(run, i, j - 1);
      AlwaysInv(run, j - 1);
      VersionStep(run.states[j - 1], run.events[j - 1].call, run.events[j - 1].now);
    }
  }

  /** Bootstrap parameters are immutable. */
  lemma {:induction false} ConfigFixed(run: Run, i: nat, j: nat)
    requires run.FromEmpty() && i <= j < |run.states| && run.states[i].config.Some?
    ensures run.states[j].config.Some?
    ensures run.states[j].config.value.config == run.states[i].config.value.config
    decreases j
  {
    hide Exec;
    if i < j {
      ConfigFixed(run, i, j - 1);
      AlwaysInv(run, j - 1);
      VersionStep(run.states[j - 1], run.events[j - 1].call, run.events[j - 1].now);
    }
  }

  /** Before bootstrap it is not: a registration then changes the routes under version 0. */
  lemma RegistrationBeforeBootstrapIsSilent()
    ensures var db := Exec(EMPTY, CallRegister("u", Data, "d", "", Standby), 0).db;
            Version(db) == Version(EMPTY) && Routes(db) != Routes(EMPTY)
  {
    var db := Exec(EMPTY, CallRegister("u", Data, "d", "", Standby), 0).db;
    assert |Routes(db)| == 1;
  }

  // ---- bucket assignment ----------------------------------------------------------------------

  lemma SealNeverMakesStandby(db: Db, i: nat, seal: Assign, b: string, now: int, k: nat)
    requires i < |db.shards| && k < |db.shards| && (seal.ToSealed? || seal.ToSealedAfterDrain?)
    ensures var next := SealAndPromote(db, i, seal, b, now).db.shards;
            |next| == |db.shards| && (next[k].state == Standby ==> db.shards[k].state == Standby)
  {
    hide Matches, OneActivePerBucket;
  }

  lemma PromoteNeverMakesStandby(db: Db, b: string, now: int, k: nat)
    requires k < |db.shards|
    ensures var next := PromoteStandby(db, b, now).db.shards;
            |next| == |db.shards| && (next[k].state == Standby ==> db.shards[k].state == Standby)
  {
    hide Matches, OneActivePerBucket;
  }

  lemma UpdateMakesStandby(rows: seq<Shard>, w: Where, a: Assign, k: nat)
    requires k < |rows| && !a.SetState?
    ensures Update(rows, w, a)[k].state == Standby && rows[k].state != Standby ==> a.Recycle? && Matches(w, rows[k])
  {
    hide Matches;
  }

  lemma BulkMakesStandby(db: Db, w: Where, a: Assign, missing: Outcome, k: nat)
    requires k < |db.shards| && !a.SetState?
    ensures var next := BulkUpdate(db, w, a, missing).db.shards;
            |next| == |db.shards|
            && (next[k].state == Standby && db.shards[k].state != Standby ==> a.Recycle? && Matches(w, db.shards[k]))
    ensures var next := QuietUpdate(db, w, a).db.shards;
            |next| == |db.shards|
            && (next[k].state == Standby && db.shards[k].state != Standby ==> a.Recycle? && Matches(w, db.shards[k]))
  {
    hide Update, Matches, Any;
    UpdateMakesStandby(db.shards, w, a, k);
  }

  /** A used shard becomes standby only by FinishCleaning of that shard, or by a manual patch that keeps its bucket. */
  lemma BecomesStandby(db: Db, call: Call, now: int, k: nat)
    requires Inv(db) && k < |db.shards| && db.shards[k].state != Standby
    ensures k < |Exec(db, call, now).db.shards|
    ensures Exec(db, call, now).db.shards[k].state == Standby ==>
              || (call == CallFinishCleaning(db.shards[k].uuid) && db.shards[k].state == Cleaning)
              || (call.CallPatchState? && call.state == Standby
                  && Exec(db, call, now).db.shards[k].bucket == db.shards[k].bucket)
  {
    hide Inv, First, OneActivePerBucket, SealAndPromote, PromoteStandby, BulkUpdate, QuietUpdate;
    match call
    case CallBootstrap(_) =>
    case CallRegister(_, _, _, _, _) =>
    case CallPromote(b) => PromoteNeverMakesStandby(db, b, now, k);
    case CallAutoPromote(b, _) => PromoteNeverMakesStandby(db, b, now, k);
    case CallSealRotate(b) =>
      var i := First(db.shards, ActiveIn(b));
      if i.Some? { SealNeverMakesStandby(db, i.value, ToSealed, b, now, k); }
    case CallCompleteDrainSeal(b) =>
      var i := First(db.shards, DrainingIn(b));
      if i.Some? { SealNeverMakesStandby(db, i.value, ToSealedAfterDrain, b, now, k); }
    case CallPatchState(_, _) =>
    case CallBeginDrain(b) => BulkMakesStandby(db, ActiveIn(b), ToDraining(now), NotFound, k);
    case CallMarkDrainReady(u) => BulkMakesStandby(db, WithUuidAndState(u, Draining), SetDrainReady, NotFound, k);
    case CallMarkCleaning(b) => BulkMakesStandby(db, SealedIn(b), ToCleaning, Done, k);
    case CallFinishCleaning(u) => BulkMakesStandby(db, WithUuidAndState(u, Cleaning), Recycle, Done, k);
    case CallUpdateStats(u, bytes) => BulkMakesStandby(db, WithUuid(u), SetStats(bytes, now), NotFound, k);
  }

  /** A bucket is given up only by FinishCleaning of that very shard. */
  lemma BucketLostOnlyByRecycling(db: Db, call: Call, now: int, k: nat)
    requires Inv(db) && k < |db.shards| && db.shards[k].bucket.Some?
    ensures k < |Exec(db, call, now).db.shards|
    ensures Exec(db, call, now).db.shards[k].bucket != db.shards[k].bucket ==>
              call == CallFinishCleaning(db.shards[k].uuid) && db.shards[k].state == Cleaning
  {
    hide Exec;
    StepRefines(db, call, now);
    assert RowStep(db.shards[k], Exec(db, call, now).db.shards[k]);
    if db.shards[k].state != Standby {
      BecomesStandby(db, call, now, k);
    }
  }

  /** Once assigned to `b`, a shard stays on `b` until it is recycled from cleaning. */
  lemma {:induction false} BucketIsSticky(run: Run, i: nat, j: nat, k: nat, b: string) returns (m: nat)
    requires run.FromEmpty() && i <= j < |run.states| && k < |run.states[i].shards|
    requires run.states[i].shards[k].bucket == Some(b)
    requires k < |run.states[j].shards| && run.states[j].shards[k].bucket != Some(b)
    ensures i <= m < j && k < |run.states[m].shards|
    ensures run.events[m].call == CallFinishCleaning(run.states[m].shards[k].uuid)
    ensures run.states[m].shards[k].state == Cleaning && run.states[m].shards[k].bucket == Some(b)
    decreases j
  {
    hide Exec;
    RowIdentity(run, i, j - 1, k);
    if run.states[j - 1].shards[k].bucket != Some(b) {
      m := BucketIsSticky(run, i, j - 1, k, b);
    } else {
      m := j - 1;
      AlwaysInv(run, m);
      BucketLostOnlyByRecycling(run.states[m], run.events[m].call, run.events[m].now, k);
    }
  }

  /** A shard that reaches cleaning from another state was sealed on the way. */
  lemma {:induction false} SealedBeforeCleaning(run: Run, i: nat, j: nat, k: nat) returns (m: nat)
    requires run.FromEmpty() && i <= j < |run.states| && k < |run.states[i].shards|
    requires run.states[i].shards[k].state != Cleaning
    requires k < |run.states[j].shards| && run.states[j].shards[k].state == Cleaning
    ensures i <= m < j && k < |run.states[m].shards| && run.states[m].shards[k].state == Sealed
    decreases j
  {
    hide Exec;
    RowIdentity(run, i, j - 1, k);
    if run.states[j - 1].shards[k].state == Cleaning {
      m := SealedBeforeCleaning(run, i, j - 1, k);
    } else {
      m := j - 1;
      RowInStep(run, m, k);
    }
  }

  /** Step `i` of the run gives row `k` the bucket `b`. */
  predicate Assigns(run: Run, i: nat, k: nat, b: string)
    requires |run.states| == |run.events| + 1
  {
    && i < |run.events| && k < |run.states[i].shards| && k < |run.states[i + 1].shards|
    && run.states[i].shards[k].bucket != Some(b) && run.states[i + 1].shards[k].bucket == Some(b)
  }

  /** Between two assignments of one shard it was sealed, then cleaning, then recycled by FinishCleaning. */
  lemma ReassignmentPath(run: Run, p: nat, q: nat, k: nat, b: string, c: string)
    returns (sealedAt: nat, recycledAt: nat)
    requires run.FromEmpty() && p < q && Assigns(run, p, k, b) && Assigns(run, q, k, c)
    ensures p < sealedAt < recycledAt < q
    ensures k < |run.states[sealedAt].shards| && run.states[sealedAt].shards[k].state == Sealed
    ensures k < |run.states[recycledAt].shards| && run.states[recycledAt].shards[k].state == Cleaning
    ensures run.events[recycledAt].call == CallFinishCleaning(run.states[recycledAt].shards[k].uuid)
  {
    hide Exec;
    RowInStep(run, p, k);
    RowInStep(run, q, k);
    recycledAt := BucketIsSticky(run, p + 1, q, k, b);
    sealedAt := SealedBeforeCleaning(run, p + 1, recycledAt, k);
  }
}

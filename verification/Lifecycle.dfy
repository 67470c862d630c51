/** What every store step keeps: the tables' shape, the lifecycle, row and topology versions, bucket assignment. */
module Lifecycle {
  import opened Common
  import opened Fsm
  import opened Bucket
  import opened Table
  import opened Transactions

  // ---- invariant --------------------------------------------------------------------------

  predicate RowOk(r: Shard, nextId: int) {
    && r.id < nextId
    && !r.state.Other?
    && (r.role == Error ==> r.state == Active && r.bucket.None?)
  }

  predicate RowsApart(r: Shard, s: Shard) {
    r.id < s.id && r.uuid != s.uuid && !(r.role == Error && s.role == Error)
  }

  /** Ids ascend, uuids differ, at most one error shard, active and without a bucket; the unique index holds. */
  predicate Inv(db: Db) {
    && (forall i :: 0 <= i < |db.shards| ==> RowOk(db.shards[i], db.nextId))
    && (forall i, j :: 0 <= i < j < |db.shards| ==> RowsApart(db.shards[i], db.shards[j]))
    && OneActivePerBucket(db.shards)
    && (db.config.Some? ==> ValidSpec(db.config.value.config.spec) && db.config.value.topologyVersion >= 1)
  }

  // ---- one row across one step ----------------------------------------------------------------

  /** Identity is fixed; a state change is a lifecycle edge; state and bucket changes raise the row version. */
  predicate RowRefines(r: Shard, s: Shard) {
    && s.id == r.id && s.uuid == r.uuid && s.role == r.role
    && (s.state != r.state ==> CanTransition(r.role, r.state, s.state))
    && s.version >= r.version
    && (s.state != r.state || s.bucket != r.bucket ==> s.version > r.version)
  }

  /** The two ways a bucket assignment changes: a standby is promoted, or a cleaned shard is recycled. */
  predicate BucketMove(r: Shard, s: Shard) {
    || s.bucket == r.bucket
    || (r.role == Data && r.state == Standby && r.bucket.None? && s.state == Active && s.bucket.Some?)
    || (r.state == Cleaning && s.state == Standby && s.bucket.None?)
  }

  /** The drain clock starts when a drain does, and is cleared by recycling only. */
  predicate ClockMove(r: Shard, s: Shard) {
    || s.drainStarted == r.drainStarted
    || (r.state == Active && s.state == Draining)
    || (r.state == Cleaning && s.state == Standby)
  }

  predicate RowStep(r: Shard, s: Shard) {
    RowRefines(r, s) && BucketMove(r, s) && ClockMove(r, s)
  }

  /** Row-wise RowStep; rows may be added at the end. */
  predicate RowsStep(rows: seq<Shard>, next: seq<Shard>) {
    |rows| <= |next| && forall k :: 0 <= k < |rows| ==> RowStep(rows[k], next[k])
  }

  /** Which SET lists are used under which WHERE clauses. */
  predicate Lawful(w: Where, a: Assign) {
    match a
    case ToDraining(_) => w.ActiveIn?
    case ToCleaning => w.SealedIn?
    case Recycle => w.WithUuidAndState? && w.state == Cleaning
    case SetDrainReady => w.WithUuidAndState? && w.state == Draining
    case SetStats(_, _) => true
    case SetEndpoint(_, _, _) => true
    case ToActive(_, _) => w.StandbyPool?
    case ToSealed => w.ActiveIn?
    case ToSealedAfterDrain => w.DrainingIn?
    case SetState(_) => false
  }

  lemma LawfulRow(w: Where, a: Assign, r: Shard)
    requires Lawful(w, a) && Matches(w, r) && (r.role == Error ==> r.state == Active)
    ensures RowStep(r, Assigned(a, r))
    ensures RowOk(r, r.id + 1) ==> RowOk(Assigned(a, r), r.id + 1)
  {
  }

  lemma UpdateRefines(db: Db, w: Where, a: Assign)
    requires Inv(db) && Lawful(w, a)
    ensures RowsStep(db.shards, Update(db.shards, w, a))
    ensures forall k :: 0 <= k < |db.shards| ==> RowOk(Update(db.shards, w, a)[k], db.nextId)
  {
    forall k | 0 <= k < |db.shards|
      ensures RowStep(db.shards[k], Update(db.shards, w, a)[k]) && RowOk(Update(db.shards, w, a)[k], db.nextId)
    {
      if Matches(w, db.shards[k]) {
        LawfulRow(w, a, db.shards[k]);
      }
    }
  }

  lemma UpdateAtRefines(rows: seq<Shard>, nextId: int, k: nat, w: Where, a: Assign)
    requires k < |rows| && Lawful(w, a) && Matches(w, rows[k])
    requires forall i :: 0 <= i < |rows| ==> RowOk(rows[i], nextId)
    ensures RowsStep(rows, UpdateAt(rows, k, a))
    ensures forall i :: 0 <= i < |rows| ==> RowOk(UpdateAt(rows, k, a)[i], nextId)
  {
    LawfulRow(w, a, rows[k]);
  }

  /** Rows that keep their identities stay apart. */
  lemma IdentityKeepsApart(rows: seq<Shard>, next: seq<Shard>)
    requires |rows| == |next| && RowsStep(rows, next)
    requires forall i, j :: 0 <= i < j < |rows| ==> RowsApart(rows[i], rows[j])
    ensures forall i, j :: 0 <= i < j < |next| ==> RowsApart(next[i], next[j])
  {
    forall i, j | 0 <= i < j < |next|
      ensures RowsApart(next[i], next[j])
    {
      assert RowsApart(rows[i], rows[j]);
      assert RowStep(rows[i], next[i]) && RowStep(rows[j], next[j]);
    }
  }

  /** Sealing one row and promoting another touches two different rows, each along its own edge. */
  lemma SealAndPromoteRefines(db: Db, i: nat, w: Where, seal: Assign, b: string, now: int)
    requires Inv(db) && i < |db.shards| && Matches(w, db.shards[i]) && Lawful(w, seal)
    requires seal.ToSealed? || seal.ToSealedAfterDrain?
    ensures Inv(SealAndPromote(db, i, seal, b, now).db)
    ensures RowsStep(db.shards, SealAndPromote(db, i, seal, b, now).db.shards)
  {
    var rows := UpdateAt(db.shards, i, seal);
    UpdateAtRefines(db.shards, db.nextId, i, w, seal);
    CommitRefines(db, rows, None);
    var k := First(rows, StandbyPool);
    if k.Some? {
      UpdateAtRefines(rows, db.nextId, k.value, StandbyPool, ToActive(b, now));
      assert k.value != i;
      CommitRefines(db, UpdateAt(rows, k.value, ToActive(b, now)), k);
    }
  }

  lemma CommitRefines(db: Db, rows: seq<Shard>, promoted: Option<nat>)
    requires Inv(db) && |rows| == |db.shards| && RowsStep(db.shards, rows)
    requires forall i :: 0 <= i < |rows| ==> RowOk(rows[i], db.nextId)
    ensures Inv(Commit(db, rows, promoted).db)
    ensures RowsStep(db.shards, Commit(db, rows, promoted).db.shards)
  {
    IdentityKeepsApart(db.shards, rows);
    Unchanged(db);
  }

  // ---- the invariant is kept, and every row change is lawful -----------------------------------

  /** Every call keeps the invariant, and moves each existing row along a lifecycle edge or not at all. */
  lemma StepRefines(db: Db, call: Call, now: int)
    requires Inv(db)
    ensures Inv(Exec(db, call, now).db)
    ensures RowsStep(db.shards, Exec(db, call, now).db.shards)
  {
    hide Inv, RowsStep, SealRotate, CompleteDrainSeal, PromoteStandby, PatchState, RegisterShard, BulkUpdate,
        QuietUpdate;
    match call
    case CallBootstrap(config) => BootstrapRefines(db, config);
    case CallRegister(uuid, role, dsn, url, startup) => RegisterRefines(db, uuid, role, dsn, url, startup, now);
    case CallPromote(b) => PromoteRefines(db, b, now);
    case CallAutoPromote(b, _) =>
      Unchanged(db);
      PromoteRefines(db, b, now);
    case CallSealRotate(b) => SealRotateRefines(db, b, now);
    case CallCompleteDrainSeal(b) => CompleteDrainSealRefines(db, b, now);
    case CallPatchState(id, state) => PatchRefines(db, id, state);
    case CallBeginDrain(b) => BulkRefines(db, ActiveIn(b), ToDraining(now), NotFound);
    case CallMarkDrainReady(uuid) => QuietRefines(db, WithUuidAndState(uuid, Draining), SetDrainReady);
    case CallMarkCleaning(b) => BulkRefines(db, SealedIn(b), ToCleaning, Done);
    case CallFinishCleaning(uuid) => BulkRefines(db, WithUuidAndState(uuid, Cleaning), Recycle, Done);
    case CallUpdateStats(uuid, bytes) => QuietRefines(db, WithUuid(uuid), SetStats(bytes, now));
  }

  lemma Unchanged(db: Db)
    ensures RowsStep(db.shards, db.shards)
  {
  }

  lemma BootstrapRefines(db: Db, config: ClusterConfig)
    requires Inv(db)
    ensures Inv(Bootstrap(db, config).db)
    ensures RowsStep(db.shards, Bootstrap(db, config).db.shards)
  {
  }

  lemma SealRotateRefines(db: Db, b: string, now: int)
    requires Inv(db)
    ensures Inv(SealRotate(db, b, now).db)
    ensures RowsStep(db.shards, SealRotate(db, b, now).db.shards)
  {
    var i := First(db.shards, ActiveIn(b));
    if i.Some? {
      SealAndPromoteRefines(db, i.value, ActiveIn(b), ToSealed, b, now);
    }
  }

  lemma CompleteDrainSealRefines(db: Db, b: string, now: int)
    requires Inv(db)
    ensures Inv(CompleteDrainSeal(db, b, now).db)
    ensures RowsStep(db.shards, CompleteDrainSeal(db, b, now).db.shards)
  {
    var i := First(db.shards, DrainingIn(b));
    if i.Some? {
      SealAndPromoteRefines(db, i.value, DrainingIn(b), ToSealedAfterDrain, b, now);
    }
  }

  lemma RowsRefine(db: Db, w: Where, a: Assign)
    requires Inv(db) && Lawful(w, a) && !a.ToActive?
    ensures Inv(db.(shards := Update(db.shards, w, a)))
    ensures RowsStep(db.shards, Update(db.shards, w, a))
  {
    UpdateRefines(db, w, a);
    IdentityKeepsApart(db.shards, Update(db.shards, w, a));
    NoNewActives(db.shards, Update(db.shards, w, a));
  }

  lemma BulkRefines(db: Db, w: Where, a: Assign, missing: Outcome)
    requires Inv(db) && Lawful(w, a) && !a.ToActive?
    ensures Inv(BulkUpdate(db, w, a, missing).db)
    ensures RowsStep(db.shards, BulkUpdate(db, w, a, missing).db.shards)
  {
    hide Update, Any;
    RowsRefine(db, w, a);
    BumpKeepsInv(db.(shards := Update(db.shards, w, a)));
    Unchanged(db);
    hide Inv, RowsStep, Bump;
  }

  lemma BumpKeepsInv(db: Db)
    requires Inv(db)
    ensures Inv(db.(config := Bump(db.config)))
  {
  }

  lemma QuietRefines(db: Db, w: Where, a: Assign)
    requires Inv(db) && Lawful(w, a) && !a.ToActive?
    ensures Inv(QuietUpdate(db, w, a).db)
    ensures RowsStep(db.shards, QuietUpdate(db, w, a).db.shards)
  {
    hide Update, Any;
    RowsRefine(db, w, a);
    Unchanged(db);
    hide Inv, RowsStep;
  }

  /** If no row becomes active, and active rows keep their bucket, the unique index still holds. */
  lemma NoNewActives(rows: seq<Shard>, next: seq<Shard>)
    requires OneActivePerBucket(rows) && |rows| == |next|
    requires forall k :: 0 <= k < |rows| && next[k].state == Active ==>
               rows[k].state == Active && rows[k].bucket == next[k].bucket && rows[k].role == next[k].role
    ensures OneActivePerBucket(next)
  {
    forall i, j | 0 <= i < j < |next|
      ensures !SameActiveBucket(next[i], next[j])
    {
      assert !SameActiveBucket(rows[i], rows[j]);
    }
  }

  lemma PromoteRefines(db: Db, b: string, now: int)
    requires Inv(db)
    ensures Inv(PromoteStandby(db, b, now).db)
    ensures RowsStep(db.shards, PromoteStandby(db, b, now).db.shards)
  {
    var k := First(db.shards, StandbyPool);
    if k.Some? {
      UpdateAtRefines(db.shards, db.nextId, k.value, StandbyPool, ToActive(b, now));
      CommitRefines(db, UpdateAt(db.shards, k.value, ToActive(b, now)), k);
    }
  }

  lemma PatchRefines(db: Db, id: int, state: State)
    requires Inv(db)
    ensures Inv(PatchState(db, id, state).db)
    ensures RowsStep(db.shards, PatchState(db, id, state).db.shards)
  {
    var k := First(db.shards, WithId(id));
    if k.Some? && CanTransition(db.shards[k.value].role, db.shards[k.value].state, state) {
      CommitRefines(db, UpdateAt(db.shards, k.value, SetState(state)), None);
    }
  }

  lemma RegisterRefines(db: Db, uuid: string, role: Role, dsn: string, url: string, startup: State, now: int)
    requires Inv(db)
    ensures Inv(RegisterShard(db, uuid, role, dsn, url, startup, now).db)
    ensures RowsStep(db.shards, RegisterShard(db, uuid, role, dsn, url, startup, now).db.shards)
  {
    var known := First(db.shards, WithUuid(uuid));
    var s := RegisterShard(db, uuid, role, dsn, url, startup, now);
    if s.outcome == Done && known.Some? {
      UpdateAtRefines(db.shards, db.nextId, known.value, WithUuid(uuid), SetEndpoint(dsn, NullStr(url), now));
      IdentityKeepsApart(db.shards, s.db.shards);
      NoNewActives(db.shards, s.db.shards);
    } else if s.outcome == Done {
      AppendKeepsInv(db, NewShard(db.nextId, uuid, role, dsn, url, StartupState(role, startup), now));
    }
  }

  lemma AppendKeepsInv(db: Db, r: Shard)
    requires Inv(db) && RowOk(r, db.nextId + 1) && r.id == db.nextId && r.bucket.None?
    requires !Any(db.shards, WithUuid(r.uuid))
    requires r.role == Error ==> !Any(db.shards, ErrorRole)
    ensures Inv(db.(shards := db.shards + [r], nextId := db.nextId + 1))
  {
    var rows := db.shards + [r];
    forall i, j | 0 <= i < j < |rows|
      ensures RowsApart(rows[i], rows[j]) && !SameActiveBucket(rows[i], rows[j])
    {
      assert RowOk(db.shards[i], db.nextId);
      if j < |db.shards| {
        assert RowsApart(db.shards[i], db.shards[j]) && !SameActiveBucket(db.shards[i], db.shards[j]);
      } else {
        assert !Matches(WithUuid(r.uuid), db.shards[i]);
        assert r.role == Error ==> !Matches(ErrorRole, db.shards[i]);
      }
    }
  }
}

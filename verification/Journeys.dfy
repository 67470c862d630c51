/** Properties that follow one shard through several operations. */
module Journeys {
  import opened Common
  import opened Fsm
  import opened Table
  import opened Transactions
  import opened Lifecycle
  import opened Runs
  import opened OneWriter
  import opened Supervisors
  import opened Resolve

  // ---- registration ----------------------------------------------------------------------------------------

  /** The row announces this endpoint and was seen at `now`. */
  predicate Announces(r: Shard, uuid: string, dsn: string, url: string, now: int) {
    && r.uuid == uuid && r.dsn == dsn && r.lastSeen == Some(now)
    && r.advertiseUrl == (if url == "" then None else Some(url))
  }

  /** What a registration may not touch on a known shard. */
  predicate SameDuty(r: Shard, s: Shard) {
    && s.id == r.id && s.uuid == r.uuid && s.role == r.role && s.state == r.state
    && s.bucket == r.bucket && s.version == r.version
    && s.maxBytes == r.maxBytes && s.reportedBytes == r.reportedBytes
    && s.drainStarted == r.drainStarted && s.drainReady == r.drainReady
  }

  /**
   Row by row: the registered uuid gets its new endpoint, every other row stays, one row is added if the uuid is new.
   */
  lemma RegistrationRows(db: Db, uuid: string, role: Role, dsn: string, url: string, startup: State, now: int)
    requires Inv(db) && RegisterShard(db, uuid, role, dsn, url, startup, now).outcome == Done
    ensures var d := RegisterShard(db, uuid, role, dsn, url, startup, now).db;
            && |d.shards| == |db.shards| + (if Any(db.shards, WithUuid(uuid)) then 0 else 1)
            && (forall k :: 0 <= k < |db.shards| ==>
                  SameDuty(db.shards[k], d.shards[k])
                  && if db.shards[k].uuid == uuid then Announces(d.shards[k], uuid, dsn, url, now)
                     else d.shards[k] == db.shards[k])
            && (!Any(db.shards, WithUuid(uuid)) ==>
                  d.shards[|db.shards|]
                  == Shard(db.nextId, uuid, role, None, if role == Error then Active else Standby, dsn,
                           if url == "" then None else Some(url), 0, None, Some(now), None, false, 1))
            && d.nextId == db.nextId + 1
            && d.config == match db.config case None => None case Some(row) =>
                             Some(ConfigRow(row.config, row.topologyVersion + 1))
  {
    hide OneActivePerBucket;
    var known := First(db.shards, WithUuid(uuid));
    var d := RegisterShard(db, uuid, role, dsn, url, startup, now).db;
    forall k | 0 <= k < |db.shards|
      ensures SameDuty(db.shards[k], d.shards[k])
      ensures if db.shards[k].uuid == uuid then Announces(d.shards[k], uuid, dsn, url, now)
              else d.shards[k] == db.shards[k]
    {
      if known.Some? {
        UuidsDiffer(db, known.value, k);
      } else {
        assert !Matches(WithUuid(uuid), db.shards[k]);
      }
    }
    hide Inv;
  }

  lemma UuidsDiffer(db: Db, i: nat, j: nat)
    requires Inv(db) && i < |db.shards| && j < |db.shards|
    ensures db.shards[i].uuid == db.shards[j].uuid <==> i == j
  {
    assert i < j ==> RowsApart(db.shards[i], db.shards[j]);
    assert j < i ==> RowsApart(db.shards[j], db.shards[i]);
  }

  predicate HasError(rows: seq<Shard>) {
    exists k :: 0 <= k < |rows| && rows[k].role == Error
  }

  lemma RegistrationOutcome(db: Db, uuid: string, role: Role, dsn: string, url: string, startup: State, now: int)
    ensures var s := RegisterShard(db, uuid, role, dsn, url, startup, now);
            && s.outcome == (if role == Error then (if HasError(db.shards) then Conflict else Done)
                             else if startup == Standby || startup == Other("") then Done else InvalidArgument)
            && (s.outcome != Done ==> s.db == db)
            && s == Exec(db, CallRegister(uuid, role, dsn, url, startup), now)
  {
    assert forall k :: 0 <= k < |db.shards| ==> (Matches(ErrorRole, db.shards[k]) <==> db.shards[k].role == Error);
    hide First;
  }

  /**
   Registration is accepted exactly for a data shard that starts empty or standby, or for the first error shard; and an
   agent that restarts and registers again with the same endpoint changes no route.
   */
  lemma RegistrationIsIdempotent(db: Db, uuid: string, role: Role, dsn: string, url: string, startup: State, now: int,
      later: int)
    requires Inv(db)
    ensures var s := RegisterShard(db, uuid, role, dsn, url, startup, now);
            && s.outcome == (if role == Error then (if HasError(db.shards) then Conflict else Done)
                             else if startup == Standby || startup == Other("") then Done else InvalidArgument)
            && (s.outcome != Done ==> s.db == db)
            && (s.outcome == Done ==>
                 Routes(RegisterShard(s.db, uuid, role, dsn, url, startup, later).db) == Routes(s.db))
  {
    RegistrationOutcome(db, uuid, role, dsn, url, startup, now);
    hide Inv, RegisterShard, StartupStateAllowed, Exec;
    var s := RegisterShard(db, uuid, role, dsn, url, startup, now);
    RegistrationOutcome(s.db, uuid, role, dsn, url, startup, later);
    var again := RegisterShard(s.db, uuid, role, dsn, url, startup, later);
    if s.outcome == Done && again.outcome == Done {
      StepRefines(db, CallRegister(uuid, role, dsn, url, startup), now);
      RegistrationRows(db, uuid, role, dsn, url, startup, now);
      RegistrationRows(s.db, uuid, role, dsn, url, startup, later);
      SecondTimeSameRoutes(s.db, again.db, uuid, dsn, url, now, later);
    }
  }

  lemma SecondTimeSameRoutes(d: Db, e: Db, uuid: string, dsn: string, url: string, now: int, later: int)
    requires exists k :: 0 <= k < |d.shards| && Announces(d.shards[k], uuid, dsn, url, now)
    requires forall k :: 0 <= k < |d.shards| && d.shards[k].uuid == uuid ==> Announces(d.shards[k], uuid, dsn, url, now)
    requires |e.shards| == |d.shards| + (if Any(d.shards, WithUuid(uuid)) then 0 else 1)
    requires forall k :: 0 <= k < |d.shards| ==>
               SameDuty(d.shards[k], e.shards[k])
               && if d.shards[k].uuid == uuid then Announces(e.shards[k], uuid, dsn, url, later)
                  else e.shards[k] == d.shards[k]
    ensures Routes(e) == Routes(d)
  {
    var k :| 0 <= k < |d.shards| && Announces(d.shards[k], uuid, dsn, url, now);
    assert Matches(WithUuid(uuid), d.shards[k]);
    assert Any(d.shards, WithUuid(uuid));
  }

  // ---- heartbeats ------------------------------------------------------------------------------------------

  /** A report touches its own row only: bytes and heartbeat. */
  lemma ReportEffect(db: Db, uuid: string, bytes: int, now: int, k: nat)
    requires k < |db.shards|
    ensures var d := UpdateStats(db, uuid, bytes, now).db;
            && |d.shards| == |db.shards|
            && d.shards[k] == if db.shards[k].uuid == uuid
                              then db.shards[k].(reportedBytes := bytes, lastSeen := Some(now)) else db.shards[k]
  {
    if !Any(db.shards, WithUuid(uuid)) {
      assert !Matches(WithUuid(uuid), db.shards[k]);
    }
  }

  /** A serving shard whose agent reported within the heartbeat timeout is not failed over by a health tick. */
  lemma HeartbeatPreventsFailover(db: Db, bytes: int, reportedAt: int, cutoff: int, now: int, k: nat)
    requires Inv(db) && OneWriterPerBucket(db.shards) && k < |db.shards| && BucketedActive(db.shards[k])
    requires cutoff <= reportedAt && cutoff <= now
    ensures var d := HealthTick(UpdateStats(db, db.shards[k].uuid, bytes, reportedAt).db, cutoff, now);
            && |d.shards| == |db.shards|
            && d.shards[k] == db.shards[k].(reportedBytes := bytes, lastSeen := Some(reportedAt))
  {
    hide Inv, OneWriterPerBucket, HealthTick, UpdateStats;
    var d := UpdateStats(db, db.shards[k].uuid, bytes, reportedAt).db;
    ReportKeeps(db, db.shards[k].uuid, bytes, reportedAt);
    ReportEffect(db, db.shards[k].uuid, bytes, reportedAt, k);
    HealthTickEffect(d, cutoff, now);
    assert HealthOutcome(d.shards[k], HealthTick(d, cutoff, now).shards[k], cutoff, now);
  }

  lemma ReportKeeps(db: Db, uuid: string, bytes: int, now: int)
    requires Inv(db) && OneWriterPerBucket(db.shards)
    ensures Inv(UpdateStats(db, uuid, bytes, now).db) && OneWriterPerBucket(UpdateStats(db, uuid, bytes, now).db.shards)
  {
    hide Inv, OneWriterPerBucket, UpdateStats;
    StepRefines(db, CallUpdateStats(uuid, bytes), now);
    OneWriterStep(db, CallUpdateStats(uuid, bytes), now);
  }

  // ---- sealing by volume -------------------------------------------------------------------------------------

  /** A drain for bucket `b` that began at `started`. */
  predicate DrainsSince(r: Shard, b: string, started: int) {
    r.role == Data && r.state == Draining && r.bucket == Some(b) && r.drainStarted == Some(started)
  }

  /** A drain goes on with its clock, or the shard is sealed for its bucket; no call does anything else to it. */
  lemma DrainEndsSealed(db: Db, call: Call, now: int, k: nat, b: string, started: int)
    requires Inv(db) && k < |db.shards| && DrainsSince(db.shards[k], b, started)
    ensures var rows := Exec(db, call, now).db.shards;
            && k < |rows|
            && (DrainsSince(rows[k], b, started) || (rows[k].state == Sealed && rows[k].bucket == Some(b)))
  {
    hide Inv, Exec;
    StepRefines(db, call, now);
    assert RowStep(db.shards[k], Exec(db, call, now).db.shards[k]);
  }

  lemma {:induction false} GuardedFrom(run: Run, i: nat)
    requires run.Valid() && Guarded(run) && i < |run.states|
    requires Inv(run.states[0]) && OneWriterPerBucket(run.states[0].shards)
    ensures Inv(run.states[i]) && OneWriterPerBucket(run.states[i].shards)
  {
    hide Exec, Inv, OneWriterPerBucket, Breaks;
    if i > 0 {
      GuardedFrom(run, i - 1);
      assert !Breaks(run.states[i - 1], run.events[i - 1].call);
      StepRefines(run.states[i - 1], run.events[i - 1].call, run.events[i - 1].now);
      OneWriterStep(run.states[i - 1], run.events[i - 1].call, run.events[i - 1].now);
    }
  }

  /** Row `k` was sealed for `b` in some state up to `j`. */
  ghost predicate SealedBy(run: Run, j: nat, k: nat, b: string) {
    exists m :: 0 <= m <= j && m < |run.states| && k < |run.states[m].shards|
                && run.states[m].shards[k].state == Sealed && run.states[m].shards[k].bucket == Some(b)
  }

  lemma {:induction false} DrainsUntilSealed(run: Run, j: nat, k: nat, b: string, started: int)
    requires run.Valid() && Guarded(run) && j < |run.states|
    requires Inv(run.states[0]) && OneWriterPerBucket(run.states[0].shards)
    requires k < |run.states[0].shards| && DrainsSince(run.states[0].shards[k], b, started)
    ensures SealedBy(run, j, k, b) || (k < |run.states[j].shards| && DrainsSince(run.states[j].shards[k], b, started))
  {
    hide Exec, Inv, OneWriterPerBucket, Guarded, DrainsSince;
    if j > 0 {
      DrainsUntilSealed(run, j - 1, k, b, started);
      if !SealedBy(run, j - 1, k, b) {
        GuardedFrom(run, j - 1);
        DrainEndsSealed(run.states[j - 1], run.events[j - 1].call, run.events[j - 1].now, k, b, started);
      }
    }
  }

  /**
   A shard found full by a seal tick is sealed for its bucket by the time any later tick past the drain timeout is over:
   whatever calls come in between (its agent's, other drains, promotions, patches), and even if its agent never answers.
   */
  lemma FullShardIsSealed(db: Db, run: Run, max: int, wall: int, timeout: int, now: int, wall': int, now': int, k: nat)
    requires Inv(db) && OneWriterPerBucket(db.shards) && k < |db.shards|
    requires BucketedActive(db.shards[k]) && wall' - now >= timeout
    requires db.shards[k].reportedBytes >= (if db.shards[k].maxBytes.Some? then db.shards[k].maxBytes.value else max)
    requires run.Valid() && run.states[0] == SealTick(db, max, wall, timeout, now) && Guarded(run)
    ensures var j := |run.states| - 1;
            var d := SealTick(run.states[j], max, wall', timeout, now');
            var b := db.shards[k].bucket.value;
            || SealedBy(run, j, k, b)
            || (k < |d.shards| && d.shards[k].state == Sealed && d.shards[k].bucket == Some(b))
  {
    hide Inv, OneWriterPerBucket, SealTick, Guarded, SealedBy;
    var j := |run.states| - 1;
    var b := db.shards[k].bucket.value;
    var start, mid := run.states[0], run.states[j];
    SealTickEffect(db, max, wall, timeout, now);
    assert SealOutcome(db.shards[k], start.shards[k], max, wall, timeout, now);
    DrainsUntilSealed(run, j, k, b, now);
    if !SealedBy(run, j, k, b) {
      GuardedFrom(run, j);
      SealTickEffect(mid, max, wall', timeout, now');
      assert SealOutcome(mid.shards[k], SealTick(mid, max, wall', timeout, now').shards[k], max, wall', timeout, now');
    }
  }

  /** A seal tick at the server's time `wall` and the database's time `now`. */
  datatype Tick = Tick(wall: int, now: int)

  function SealTicks(db: Db, max: int, timeout: int, ticks: seq<Tick>): Db {
    if |ticks| == 0 then db
    else
      var last := ticks[|ticks| - 1];
      SealTick(SealTicks(db, max, timeout, ticks[..|ticks| - 1]), max, last.wall, timeout, last.now)
  }

  /** A drain that is not reported ready is left alone however often the tick runs before its timeout. */
  lemma {:induction false} YoungDrainContinues(db: Db, max: int, timeout: int, ticks: seq<Tick>, k: nat)
    requires Inv(db) && OneWriterPerBucket(db.shards) && k < |db.shards| && BucketedDraining(db.shards[k])
    requires !db.shards[k].drainReady && db.shards[k].drainStarted.Some?
    requires forall i :: 0 <= i < |ticks| ==> ticks[i].wall - db.shards[k].drainStarted.value < timeout
    ensures var d := SealTicks(db, max, timeout, ticks);
            Inv(d) && OneWriterPerBucket(d.shards) && |d.shards| == |db.shards| && d.shards[k] == db.shards[k]
  {
    hide Inv, OneWriterPerBucket, SealTick;
    if |ticks| > 0 {
      var n := |ticks| - 1;
      YoungDrainContinues(db, max, timeout, ticks[..n], k);
      var mid := SealTicks(db, max, timeout, ticks[..n]);
      SealTickEffect(mid, max, ticks[n].wall, timeout, ticks[n].now);
      assert SealOutcome(mid.shards[k], SealTicks(db, max, timeout, ticks).shards[k], max, ticks[n].wall, timeout,
          ticks[n].now);
    }
  }

  // ---- the drain flag -------------------------------------------------------------------------------------------

  /** Only shards past active can carry the ready flag, so no drain starts out ready. */
  predicate FlagOk(r: Shard) {
    r.drainReady ==> r.state == Draining || r.state == Sealed || r.state == Cleaning
  }

  predicate FlagsOk(rows: seq<Shard>) {
    forall k :: 0 <= k < |rows| ==> FlagOk(rows[k])
  }

  predicate EndsCleaningByHand(call: Call) {
    call.CallPatchState? && call.state == Standby
  }

  lemma FlagAssigned(a: Assign, r: Shard)
    requires FlagOk(r) && !a.SetState?
    requires a.SetDrainReady? ==> r.state == Draining
    requires a.ToActive? ==> r.state == Standby
    ensures FlagOk(Assigned(a, r))
  {
  }

  lemma FlagUpdate(rows: seq<Shard>, w: Where, a: Assign)
    requires FlagsOk(rows) && Lawful(w, a) && !a.ToActive?
    ensures FlagsOk(Update(rows, w, a))
  {
    forall k | 0 <= k < |rows|
      ensures FlagOk(Update(rows, w, a)[k])
    {
      if Matches(w, rows[k]) {
        FlagAssigned(a, rows[k]);
      }
    }
  }

  lemma FlagSealAndPromote(db: Db, i: nat, seal: Assign, b: string, now: int)
    requires FlagsOk(db.shards) && i < |db.shards| && (seal.ToSealed? || seal.ToSealedAfterDrain?)
    ensures FlagsOk(SealAndPromote(db, i, seal, b, now).db.shards)
  {
    hide OneActivePerBucket;
    FlagAssigned(seal, db.shards[i]);
  }

  lemma FlagPromote(db: Db, b: string, now: int)
    requires FlagsOk(db.shards)
    ensures FlagsOk(PromoteStandby(db, b, now).db.shards)
  {
    hide OneActivePerBucket;
  }

  lemma FlagPatch(db: Db, id: int, state: State)
    requires Inv(db) && FlagsOk(db.shards) && state != Standby
    ensures FlagsOk(PatchState(db, id, state).db.shards)
  {
    hide OneActivePerBucket;
    var k := First(db.shards, WithId(id));
    if k.Some? {
      assert RowOk(db.shards[k.value], db.nextId);
    }
    hide Inv;
  }

  lemma FlagStep(db: Db, call: Call, now: int)
    requires Inv(db) && FlagsOk(db.shards) && !EndsCleaningByHand(call)
    ensures FlagsOk(Exec(db, call, now).db.shards)
  {
    hide Inv, First, Update, SealAndPromote, PromoteStandby, PatchState;
    match call
    case CallBootstrap(_) =>
    case CallRegister(_, _, _, _, _) =>
    case CallPromote(b) => FlagPromote(db, b, now);
    case CallAutoPromote(b, _) => FlagPromote(db, b, now);
    case CallSealRotate(b) =>
      var i := First(db.shards, ActiveIn(b));
      if i.Some? { FlagSealAndPromote(db, i.value, ToSealed, b, now); }
    case CallCompleteDrainSeal(b) =>
      var i := First(db.shards, DrainingIn(b));
      if i.Some? { FlagSealAndPromote(db, i.value, ToSealedAfterDrain, b, now); }
    case CallPatchState(id, state) => FlagPatch(db, id, state);
    case CallBeginDrain(b) => FlagUpdate(db.shards, ActiveIn(b), ToDraining(now));
    case CallMarkDrainReady(u) => FlagUpdate(db.shards, WithUuidAndState(u, Draining), SetDrainReady);
    case CallMarkCleaning(b) => FlagUpdate(db.shards, SealedIn(b), ToCleaning);
    case CallFinishCleaning(u) => FlagUpdate(db.shards, WithUuidAndState(u, Cleaning), Recycle);
    case CallUpdateStats(u, bytes) => FlagUpdate(db.shards, WithUuid(u), SetStats(bytes, now));
  }

  /**
   In runs where no one ends cleaning by hand, standby and active shards never carry a ready flag: an agent's report
   from an earlier drain cannot cut a later drain short, not even one started by a manual patch.
   */
  lemma {:induction false} ReadyFlagIsCurrent(run: Run, i: nat)
    requires run.FromEmpty() && i < |run.states|
    requires forall j :: 0 <= j < |run.events| ==> !EndsCleaningByHand(run.events[j].call)
    ensures FlagsOk(run.states[i].shards)
  {
    hide Exec;
    if i > 0 {
      ReadyFlagIsCurrent(run, i - 1);
      AlwaysInv(run, i - 1);
      FlagStep(run.states[i - 1], run.events[i - 1].call, run.events[i - 1].now);
    }
  }

  // ---- recycling ----------------------------------------------------------------------------------------------

  /** What promotion and routing can see of a shard, apart from who it is. */
  predicate Blank(r: Shard) {
    Matches(StandbyPool, r) && r.reportedBytes == 0 && r.drainStarted.None? && !r.drainReady
  }

  /** A recycled shard is back in the pool, as blank as a newly registered one; other rows are untouched. */
  lemma RecycledIsBlank(db: Db, uuid: string, k: nat)
    requires Inv(db) && k < |db.shards|
    ensures var d := FinishCleaning(db, uuid).db;
            && |d.shards| == |db.shards|
            && if db.shards[k].uuid == uuid && db.shards[k].state == Cleaning
               then Blank(d.shards[k]) && d.shards[k].id == db.shards[k].id && d.shards[k].dsn == db.shards[k].dsn
               else d.shards[k] == db.shards[k]
    ensures Blank(NewShard(db.nextId, uuid, Data, "", "", Standby, 0))
  {
    assert RowOk(db.shards[k], db.nextId);
    if !Any(db.shards, WithUuidAndState(uuid, Cleaning)) {
      assert !Matches(WithUuidAndState(uuid, Cleaning), db.shards[k]);
    }
    hide Inv;
  }

  // ---- reads ---------------------------------------------------------------------------------------------------

  /** A read of a bucket lists every sealed and every fresh active shard of it, and nothing else. */
  lemma ReadListsReadable(db: Db, b: string, cutoff: int, k: nat)
    requires Inv(db) && k < |db.shards|
    ensures ToReadShard(db.shards[k]) in ToReadShards(Select(db.shards, ReadableIn(b, cutoff)))
            <==> InBucket(db.shards[k], b)
                 && (db.shards[k].state == Sealed
                     || (db.shards[k].state == Active
                         && db.shards[k].lastSeen.Some? && db.shards[k].lastSeen.value >= cutoff))
  {
    var rows := Select(db.shards, ReadableIn(b, cutoff));
    var out := ToReadShards(rows);
    if Matches(ReadableIn(b, cutoff), db.shards[k]) {
      assert db.shards[k] in rows;
      var i :| 0 <= i < |rows| && rows[i] == db.shards[k];
      assert out[i] == ToReadShard(db.shards[k]);
    }
    if ToReadShard(db.shards[k]) in out {
      var i :| 0 <= i < |out| && out[i] == ToReadShard(db.shards[k]);
      assert rows[i] in rows;
      SameIdSameRow(db, rows[i], k);
    }
    hide Inv;
  }

  lemma SameIdSameRow(db: Db, r: Shard, k: nat)
    requires Inv(db) && k < |db.shards| && r in db.shards && r.id == db.shards[k].id
    ensures r == db.shards[k]
  {
    var j :| 0 <= j < |db.shards| && db.shards[j] == r;
    IdsDiffer(db, j, k);
  }

  lemma IdsDiffer(db: Db, i: nat, j: nat)
    requires Inv(db) && i < |db.shards| && j < |db.shards|
    ensures db.shards[i].id == db.shards[j].id <==> i == j
  {
    assert i < j ==> RowsApart(db.shards[i], db.shards[j]);
    assert j < i ==> RowsApart(db.shards[j], db.shards[i]);
  }
}

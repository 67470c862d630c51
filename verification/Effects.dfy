/**
 What every transaction of internal/store/store.go does to every row, column by column. The statements speak of columns
 only, not of the WHERE clauses and SET lists the transactions are written with.
 */
module Effects {
  import opened Common
  import opened Fsm
  import opened Bucket
  import opened Table
  import opened Transactions
  import opened Lifecycle
  import opened OneWriter
  import Resolve
  import ResolveRace

  // ---- rows, by their columns -----------------------------------------------------------------------------

  predicate InPool(r: Shard) {
    r.role == Data && r.state == Standby && r.bucket == None
  }

  /** The standby with the lowest id. */
  predicate NextInLine(rows: seq<Shard>, k: int) {
    0 <= k < |rows| && InPool(rows[k]) && forall j :: 0 <= j < k ==> !InPool(rows[j])
  }

  predicate ActiveFor(r: Shard, b: string) {
    r.role == Data && r.state == Active && r.bucket == Some(b)
  }

  predicate DrainingFor(r: Shard, b: string) {
    r.role == Data && r.state == Draining && r.bucket == Some(b)
  }

  predicate SealedFor(r: Shard, b: string) {
    r.role == Data && r.state == Sealed && r.bucket == Some(b)
  }

  function Promoted(r: Shard, b: string, now: int): Shard {
    r.(bucket := Some(b), state := Active, lastSeen := Some(now), version := r.version + 1)
  }

  function StartedDraining(r: Shard, now: int): Shard {
    r.(state := Draining, drainStarted := Some(now), drainReady := false, version := r.version + 1)
  }

  /** topology_version went up by one, if there is one; the id sequence did not move. */
  predicate BumpedOnce(db: Db, next: Db) {
    && next.nextId == db.nextId
    && next.config == match db.config case None => None case Some(row) =>
                        Some(ConfigRow(row.config, row.topologyVersion + 1))
  }

  predicate SameConfig(db: Db, next: Db) {
    next.nextId == db.nextId && next.config == db.config
  }

  // ---- from clauses to columns -----------------------------------------------------------------------------

  lemma PoolClause(rows: seq<Shard>)
    ensures First(rows, StandbyPool).Some? <==> exists k :: 0 <= k < |rows| && InPool(rows[k])
    ensures forall k: nat :: NextInLine(rows, k) <==> First(rows, StandbyPool) == Some(k)
  {
    var f := First(rows, StandbyPool);
    assert forall k :: 0 <= k < |rows| ==> (InPool(rows[k]) <==> Matches(StandbyPool, rows[k]));
    forall k: nat
      ensures NextInLine(rows, k) <==> f == Some(k)
    {
      if f.Some? { assert InPool(rows[f.value]); }
    }
    hide Matches, First;
  }

  lemma ActiveClause(rows: seq<Shard>, b: string)
    ensures Any(rows, ActiveIn(b)) <==> exists k :: 0 <= k < |rows| && ActiveFor(rows[k], b)
  {
    assert forall k :: 0 <= k < |rows| ==> (ActiveFor(rows[k], b) <==> Matches(ActiveIn(b), rows[k]));
    hide Matches;
  }

  lemma DrainingClause(rows: seq<Shard>, b: string)
    ensures Any(rows, DrainingIn(b)) <==> exists k :: 0 <= k < |rows| && DrainingFor(rows[k], b)
  {
    assert forall k :: 0 <= k < |rows| ==> (DrainingFor(rows[k], b) <==> Matches(DrainingIn(b), rows[k]));
    hide Matches;
  }

  /** Sealing a row leaves the line of standbys as it was. */
  lemma LineSurvivesSealing(rows: seq<Shard>, i: nat, r: Shard)
    requires i < |rows| && !InPool(rows[i]) && !InPool(r)
    ensures forall k: nat :: NextInLine(rows[i := r], k) <==> NextInLine(rows, k)
  {
    var next := rows[i := r];
    forall k: nat
      ensures NextInLine(next, k) <==> NextInLine(rows, k)
    {
      assert forall j :: 0 <= j < |rows| ==> (InPool(next[j]) <==> InPool(rows[j]));
    }
  }

  // ---- promotion and rotation ---------------------------------------------------------------------------------

  /** A row after the standby first in line, if there is one, was promoted. */
  function Replaced(rows: seq<Shard>, k: int, b: string, now: int): Shard
    requires 0 <= k < |rows|
  {
    if NextInLine(rows, k) then Promoted(rows[k], b, now) else rows[k]
  }

  /** The standby first in line becomes the bucket's active; refused for lack of a standby or for a second active. */
  lemma PromotionColumns(db: Db, b: string, now: int)
    requires Inv(db)
    ensures var s := Exec(db, CallPromote(b), now);
            && s.outcome == (if !(exists k :: 0 <= k < |db.shards| && InPool(db.shards[k])) then NotFound
                             else if exists k :: 0 <= k < |db.shards| && ActiveFor(db.shards[k], b) then UniqueViolation
                             else Done)
            && (s.outcome != Done ==> s.db == db)
            && (s.outcome == Done ==>
                  && |s.db.shards| == |db.shards| && BumpedOnce(db, s.db)
                  && forall k :: 0 <= k < |db.shards| ==>
                       s.db.shards[k] == Replaced(db.shards, k, b, now))
  {
    PoolClause(db.shards);
    ActiveClause(db.shards, b);
    var k := First(db.shards, StandbyPool);
    if k.Some? {
      IndexOnActivation(db.shards, k.value, Assigned(ToActive(b, now), db.shards[k.value]), b);
    }
    hide Inv, First, Matches, OneActivePerBucket, NextInLine;
  }

  lemma HandOverColumns(db: Db, i: nat, seal: Assign, r: Shard, b: string, now: int)
    requires i < |db.shards| && !InPool(db.shards[i]) && !InPool(r) && Assigned(seal, db.shards[i]) == r
    requires SealAndPromote(db, i, seal, b, now).outcome == Done
    ensures var s := SealAndPromote(db, i, seal, b, now);
            && |s.db.shards| == |db.shards| && BumpedOnce(db, s.db)
            && forall k :: 0 <= k < |db.shards| ==>
                 s.db.shards[k] == if k == i then r else Replaced(db.shards, k, b, now)
  {
    hide First, OneActivePerBucket;
    LineSurvivesSealing(db.shards, i, r);
    PoolClause(db.shards[i := r]);
    hide NextInLine, InPool;
  }

  /** Rotation seals the bucket's active and promotes the standby first in line, if there is one. */
  lemma RotationColumns(db: Db, b: string, now: int)
    requires Inv(db)
    ensures var s := Exec(db, CallSealRotate(b), now);
            if exists k :: 0 <= k < |db.shards| && ActiveFor(db.shards[k], b) then
              && s.outcome == Done && |s.db.shards| == |db.shards| && BumpedOnce(db, s.db)
              && forall k :: 0 <= k < |db.shards| ==>
                   s.db.shards[k] == if ActiveFor(db.shards[k], b)
                                     then db.shards[k].(state := Sealed, version := db.shards[k].version + 1)
                                     else Replaced(db.shards, k, b, now)
            else s.outcome == NotFound && s.db == db
  {
    hide SealAndPromote;
    ActiveClause(db.shards, b);
    ResolveRace.RotationSucceeds(db, b, now);
    var i := First(db.shards, ActiveIn(b));
    if i.Some? {
      var r := db.shards[i.value].(state := Sealed, version := db.shards[i.value].version + 1);
      HandOverColumns(db, i.value, ToSealed, r, b, now);
      forall k | 0 <= k < |db.shards| && k != i.value
        ensures !ActiveFor(db.shards[k], b)
      {
        if Matches(ActiveIn(b), db.shards[k]) { Resolve.ActiveIsUnique(db, b, i.value, k); }
      }
    }
    hide Inv, First, Matches, OneActivePerBucket, NextInLine;
  }

  /** Completing a drain seals the bucket's draining shard, clears its flag, and replaces it likewise. */
  lemma DrainCompletionColumns(db: Db, b: string, now: int)
    requires Inv(db) && OneWriterPerBucket(db.shards)
    ensures var s := Exec(db, CallCompleteDrainSeal(b), now);
            if exists k :: 0 <= k < |db.shards| && DrainingFor(db.shards[k], b) then
              && s.outcome == Done && |s.db.shards| == |db.shards| && BumpedOnce(db, s.db)
              && forall k :: 0 <= k < |db.shards| ==>
                   s.db.shards[k] == if DrainingFor(db.shards[k], b)
                                     then db.shards[k].(state := Sealed, drainReady := false,
                                                        version := db.shards[k].version + 1)
                                     else Replaced(db.shards, k, b, now)
            else s.outcome == NotFound && s.db == db
  {
    hide Inv, OneWriterPerBucket, SealAndPromote, First;
    DrainingClause(db.shards, b);
    CompleteDrainSealStep(db, b, now);
    var i := First(db.shards, DrainingIn(b));
    if i.Some? {
      var r := db.shards[i.value].(state := Sealed, drainReady := false, version := db.shards[i.value].version + 1);
      HandOverColumns(db, i.value, ToSealedAfterDrain, r, b, now);
      forall k | 0 <= k < |db.shards| && k != i.value
        ensures !DrainingFor(db.shards[k], b)
      {
        NotBoth(db.shards, i.value, k, b);
      }
    }
    hide Matches, NextInLine;
  }

  lemma NotBoth(rows: seq<Shard>, i: nat, k: nat, b: string)
    requires OneWriterPerBucket(rows) && i < |rows| && k < |rows| && i != k && DrainingFor(rows[i], b)
    ensures !DrainingFor(rows[k], b)
  {
    assert !Rivals(rows[i], rows[k]);
  }

  predicate SomeActive(rows: seq<Shard>, b: string) {
    exists k :: 0 <= k < |rows| && ActiveFor(rows[k], b)
  }

  predicate SomeStandby(rows: seq<Shard>) {
    exists k :: 0 <= k < |rows| && InPool(rows[k])
  }

  /** A bucket whose drain ends has an active at once, exactly if a standby is left. */
  lemma DrainIsHandedOver(db: Db, b: string, now: int)
    requires Inv(db) && OneWriterPerBucket(db.shards)
    requires exists k :: 0 <= k < |db.shards| && DrainingFor(db.shards[k], b)
    ensures SomeActive(Exec(db, CallCompleteDrainSeal(b), now).db.shards, b) <==> SomeStandby(db.shards)
  {
    hide Exec, Inv, OneWriterPerBucket;
    SomeoneIsNext(db.shards);
    DrainCompletionColumns(db, b, now);
    OnlyWriter(db.shards, b);
    var next := Exec(db, CallCompleteDrainSeal(b), now).db.shards;
    if k: nat :| NextInLine(db.shards, k) { assert ActiveFor(next[k], b); }
  }

  /** A bucket whose active is rotated out has a new active at once, exactly if a standby is left. */
  lemma RotationIsHandedOver(db: Db, b: string, now: int)
    requires Inv(db) && SomeActive(db.shards, b)
    ensures SomeActive(Exec(db, CallSealRotate(b), now).db.shards, b) <==> SomeStandby(db.shards)
  {
    hide Exec, Inv;
    SomeoneIsNext(db.shards);
    RotationColumns(db, b, now);
    var next := Exec(db, CallSealRotate(b), now).db.shards;
    if k: nat :| NextInLine(db.shards, k) { assert ActiveFor(next[k], b); }
  }

  lemma OnlyWriter(rows: seq<Shard>, b: string)
    requires OneWriterPerBucket(rows) && exists k :: 0 <= k < |rows| && DrainingFor(rows[k], b)
    ensures forall k :: 0 <= k < |rows| ==> !ActiveFor(rows[k], b)
  {
    var i :| 0 <= i < |rows| && DrainingFor(rows[i], b);
    forall k | 0 <= k < |rows|
      ensures !ActiveFor(rows[k], b)
    {
      assert k != i ==> !Rivals(rows[i], rows[k]);
    }
  }

  lemma SomeoneIsNext(rows: seq<Shard>)
    ensures SomeStandby(rows) <==> exists k: nat :: NextInLine(rows, k)
  {
    PoolClause(rows);
    var f := First(rows, StandbyPool);
    if f.Some? { assert NextInLine(rows, f.value); }
  }

  // ---- the other transactions ------------------------------------------------------------------------------------

  /** An UPDATE changes exactly the rows its clause matches. */
  lemma BulkColumns(db: Db, w: Where, a: Assign, missing: Outcome)
    ensures var s, q := BulkUpdate(db, w, a, missing), QuietUpdate(db, w, a);
            && |s.db.shards| == |q.db.shards| == |db.shards|
            && (forall k :: 0 <= k < |db.shards| ==>
                  s.db.shards[k] == q.db.shards[k]
                  == if Matches(w, db.shards[k]) then Assigned(a, db.shards[k]) else db.shards[k])
            && (if exists k :: 0 <= k < |db.shards| && Matches(w, db.shards[k])
                then s.outcome == q.outcome == Done && BumpedOnce(db, s.db) && SameConfig(db, q.db)
                else s == Step(db, missing, None) && q == Step(db, NotFound, None))
  {
    hide Matches, Assigned;
    if Any(db.shards, w) {
      assert Matches(w, db.shards[First(db.shards, w).value]);
    }
  }

  // Clause and assignment of each UPDATE, read off one row.

  lemma DrainStartRow(b: string, now: int, r: Shard)
    ensures Matches(ActiveIn(b), r) <==> ActiveFor(r, b)
    ensures Assigned(ToDraining(now), r) == StartedDraining(r, now)
  {
  }

  lemma DrainReadyRow(uuid: string, r: Shard)
    ensures Matches(WithUuidAndState(uuid, Draining), r) <==> DrainingOf(r, uuid)
    ensures Assigned(SetDrainReady, r) == r.(drainReady := true, version := r.version + 1)
  {
  }

  lemma StatsRow(uuid: string, bytes: int, now: int, r: Shard)
    ensures Matches(WithUuid(uuid), r) <==> r.uuid == uuid
    ensures Assigned(SetStats(bytes, now), r) == r.(reportedBytes := bytes, lastSeen := Some(now))
  {
  }

  lemma CleaningRow(b: string, r: Shard)
    ensures Matches(SealedIn(b), r) <==> SealedFor(r, b)
    ensures Assigned(ToCleaning, r) == r.(state := Cleaning, version := r.version + 1)
  {
  }

  lemma RecyclingRow(uuid: string, r: Shard)
    ensures Matches(WithUuidAndState(uuid, Cleaning), r) <==> CleaningOf(r, uuid)
    ensures Assigned(Recycle, r) == Blanked(r)
  {
  }

  /** The bucket's actives drain from `now` on, with the ready flag down. */
  lemma DrainStartColumns(db: Db, b: string, now: int)
    ensures var s := Exec(db, CallBeginDrain(b), now);
            if exists k :: 0 <= k < |db.shards| && ActiveFor(db.shards[k], b) then
              && s.outcome == Done && |s.db.shards| == |db.shards| && BumpedOnce(db, s.db)
              && forall k :: 0 <= k < |db.shards| ==>
                   s.db.shards[k]
                   == if ActiveFor(db.shards[k], b) then StartedDraining(db.shards[k], now) else db.shards[k]
            else s.outcome == NotFound && s.db == db
  {
    hide BulkUpdate, QuietUpdate, Matches, Assigned;
    BulkColumns(db, ActiveIn(b), ToDraining(now), NotFound);
    forall k | 0 <= k < |db.shards| {
      DrainStartRow(b, now, db.shards[k]);
    }
  }

  predicate DrainingOf(r: Shard, uuid: string) {
    r.uuid == uuid && r.state == Draining
  }

  /** A report raises the flag of its draining shard; the topology does not change. */
  lemma DrainReadyColumns(db: Db, uuid: string, now: int)
    ensures var s := Exec(db, CallMarkDrainReady(uuid), now);
            if exists k :: 0 <= k < |db.shards| && DrainingOf(db.shards[k], uuid) then
              && s.outcome == Done && |s.db.shards| == |db.shards| && SameConfig(db, s.db)
              && forall k :: 0 <= k < |db.shards| ==>
                   s.db.shards[k] == if DrainingOf(db.shards[k], uuid)
                                     then db.shards[k].(drainReady := true, version := db.shards[k].version + 1)
                                     else db.shards[k]
            else s.outcome == NotFound && s.db == db
  {
    hide BulkUpdate, QuietUpdate, Matches, Assigned;
    BulkColumns(db, WithUuidAndState(uuid, Draining), SetDrainReady, NotFound);
    forall k | 0 <= k < |db.shards| {
      DrainReadyRow(uuid, db.shards[k]);
    }
  }

  /** A size report sets bytes and heartbeat of its shard, in any state; not even the row version moves. */
  lemma StatsColumns(db: Db, uuid: string, bytes: int, now: int)
    ensures var s := Exec(db, CallUpdateStats(uuid, bytes), now);
            if exists k :: 0 <= k < |db.shards| && db.shards[k].uuid == uuid then
              && s.outcome == Done && |s.db.shards| == |db.shards| && SameConfig(db, s.db)
              && forall k :: 0 <= k < |db.shards| ==>
                   s.db.shards[k] == if db.shards[k].uuid == uuid
                                     then db.shards[k].(reportedBytes := bytes, lastSeen := Some(now)) else db.shards[k]
            else s.outcome == NotFound && s.db == db
  {
    hide BulkUpdate, QuietUpdate, Matches, Assigned;
    BulkColumns(db, WithUuid(uuid), SetStats(bytes, now), NotFound);
    forall k | 0 <= k < |db.shards| {
      StatsRow(uuid, bytes, now, db.shards[k]);
    }
  }

  /** The bucket's sealed shards start cleaning; without any, nothing happens and the version stays. */
  lemma CleaningColumns(db: Db, b: string, now: int)
    ensures var s := Exec(db, CallMarkCleaning(b), now);
            && s.outcome == Done && |s.db.shards| == |db.shards|
            && (forall k :: 0 <= k < |db.shards| ==>
                  s.db.shards[k] == if SealedFor(db.shards[k], b)
                                    then db.shards[k].(state := Cleaning, version := db.shards[k].version + 1)
                                    else db.shards[k])
            && if exists k :: 0 <= k < |db.shards| && SealedFor(db.shards[k], b) then BumpedOnce(db, s.db)
               else s.db == db
  {
    hide BulkUpdate, QuietUpdate, Matches, Assigned;
    BulkColumns(db, SealedIn(b), ToCleaning, Done);
    forall k | 0 <= k < |db.shards| {
      CleaningRow(b, db.shards[k]);
    }
  }

  predicate CleaningOf(r: Shard, uuid: string) {
    r.uuid == uuid && r.state == Cleaning
  }

  function Blanked(r: Shard): Shard {
    r.(state := Standby, bucket := None, reportedBytes := 0, drainStarted := None, drainReady := false,
       version := r.version + 1)
  }

  /** A cleaning shard becomes a blank standby; any other report is ignored. */
  lemma RecyclingColumns(db: Db, uuid: string, now: int)
    ensures var s := Exec(db, CallFinishCleaning(uuid), now);
            && s.outcome == Done && |s.db.shards| == |db.shards|
            && (forall k :: 0 <= k < |db.shards| ==>
                  s.db.shards[k] == if CleaningOf(db.shards[k], uuid) then Blanked(db.shards[k]) else db.shards[k])
            && if exists k :: 0 <= k < |db.shards| && CleaningOf(db.shards[k], uuid) then BumpedOnce(db, s.db)
               else s.db == db
  {
    hide BulkUpdate, QuietUpdate, Matches, Assigned;
    BulkColumns(db, WithUuidAndState(uuid, Cleaning), Recycle, Done);
    forall k | 0 <= k < |db.shards| {
      RecyclingRow(uuid, db.shards[k]);
    }
  }

  /** The edges a manual patch may follow: the lifecycle for data shards, staying active for the error shard. */
  predicate Edge(r: Shard, to: State) {
    if r.role == Error then to == Active
    else
      || (r.state == Standby && to == Active)
      || (r.state == Active && (to == Draining || to == Sealed))
      || (r.state == Draining && to == Sealed)
      || (r.state == Sealed && to == Cleaning)
      || (r.state == Cleaning && to == Standby)
  }

  /** A manual patch sets the state column of one row along an edge, unless that makes a second active. */
  lemma PatchColumns(db: Db, id: int, state: State, now: int, k: nat)
    requires Inv(db) && k < |db.shards| && db.shards[k].id == id
    ensures var s := Exec(db, CallPatchState(id, state), now);
            && s.outcome == (if !Edge(db.shards[k], state) then InvalidArgument
                             else if db.shards[k].role == Data && state == Active && db.shards[k].bucket.Some?
                                     && SomeActive(db.shards, db.shards[k].bucket.value)
                             then UniqueViolation
                             else Done)
            && (s.outcome != Done ==> s.db == db)
            && (s.outcome == Done ==>
                  && BumpedOnce(db, s.db)
                  && s.db.shards == db.shards[k := db.shards[k].(state := state, version := db.shards[k].version + 1)])
  {
    ResolveRace.FoundById(db, k);
    PatchOutcome(db, id, state);
    assert RowOk(db.shards[k], db.nextId);
    if db.shards[k].bucket.Some? {
      ActiveClause(db.shards, db.shards[k].bucket.value);
    }
    hide Inv, First, OneActivePerBucket, Matches;
  }

  /** A patch of an id that no row has changes nothing. */
  lemma PatchMissing(db: Db, id: int, state: State, now: int)
    requires forall k :: 0 <= k < |db.shards| ==> db.shards[k].id != id
    ensures Exec(db, CallPatchState(id, state), now) == Step(db, NotFound, None)
  {
    assert forall k :: 0 <= k < |db.shards| ==> !Matches(WithId(id), db.shards[k]);
  }

  /** Auto-promotion: nothing for a bucket seen in time, NotFound beside any other writer, else a promotion. */
  lemma AutoPromotionCases(db: Db, b: string, cutoff: int, now: int)
    ensures var s := Exec(db, CallAutoPromote(b, cutoff), now);
            s == if exists k :: 0 <= k < |db.shards| && ActiveFor(db.shards[k], b)
                                && db.shards[k].lastSeen.Some? && db.shards[k].lastSeen.value >= cutoff
                 then Step(db, Done, None)
                 else if exists k :: 0 <= k < |db.shards|
                                     && (ActiveFor(db.shards[k], b) || DrainingFor(db.shards[k], b))
                 then Step(db, NotFound, None)
                 else Exec(db, CallPromote(b), now)
  {
    hide First, PromoteStandby;
    assert forall k :: 0 <= k < |db.shards| ==>
        (Matches(WriterIn(b), db.shards[k]) <==> ActiveFor(db.shards[k], b) || DrainingFor(db.shards[k], b));
    SeenClause(db.shards, b, cutoff);
  }

  lemma SeenClause(rows: seq<Shard>, b: string, cutoff: int)
    ensures Any(rows, FreshActiveIn(b, cutoff))
            <==> exists k :: 0 <= k < |rows| && ActiveFor(rows[k], b)
                             && rows[k].lastSeen.Some? && rows[k].lastSeen.value >= cutoff
  {
    assert forall k :: 0 <= k < |rows| ==>
        (Matches(FreshActiveIn(b, cutoff), rows[k])
         <==> ActiveFor(rows[k], b) && rows[k].lastSeen.Some? && rows[k].lastSeen.value >= cutoff);
    hide Matches;
  }

  /** Bootstrap writes the one config row, with version 1, if there is none and the spec is one ParseSpec accepts. */
  lemma BootstrapColumns(db: Db, config: ClusterConfig, now: int)
    ensures var s := Exec(db, CallBootstrap(config), now);
            var ok := match config.spec
                      case TimeAxis(_) => true
                      case NumericAxis(width) => 1 <= width <= 0x7FFF_FFFF_FFFF_FFFF
                      case HashAxis(count) => 1 <= count <= 0x7FFF_FFFF_FFFF_FFFF;
            if db.config.Some? then s == Step(db, AlreadyBootstrapped, None)
            else if !ok then s == Step(db, InvalidArgument, None)
            else s == Step(Db(db.shards, Some(ConfigRow(config, 1)), db.nextId), Done, None)
  {
  }

  /** Whatever call runs, a row's state moves along the lifecycle or stays. */
  lemma StepFollowsEdges(db: Db, call: Call, now: int, k: nat)
    requires Inv(db) && k < |db.shards|
    ensures var rows := Exec(db, call, now).db.shards;
            k < |rows| && (rows[k].state == db.shards[k].state || Edge(db.shards[k], rows[k].state))
  {
    hide Inv, Exec;
    StepRefines(db, call, now);
    assert RowStep(db.shards[k], Exec(db, call, now).db.shards[k]);
  }
}

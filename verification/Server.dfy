/** The resolver and the three supervisors as code that drives a Store object. */
module Server {
  import opened Common
  import opened Fsm
  import opened Bucket
  import opened Routing
  import opened Table
  import opened Transactions
  import opened Lifecycle
  import opened OneWriter
  import opened MetadataStore
  import Resolve
  import Supervisors
  import Ticks

  lemma AutoPromoteCall(db: Db, b: string, cutoff: int, now: int)
    ensures Exec(db, CallAutoPromote(b, cutoff), now) == AutoPromote(db, b, cutoff, now)
  {
  }

  /** internal/resolve.Service. */
  class Resolver {
    const store: Store
    const lib: Lib

    constructor (store: Store, lib: Lib)
      ensures this.store == store && this.lib == lib
    {
      this.store, this.lib := store, lib;
    }

    method ActiveForBucket(b: string, now: int) returns (found: Resolve.Answer<Shard>)
      ensures found == Resolve.RowAt(store.shards, First(store.shards, FreshActiveIn(b, store.Cutoff(now))))
    {
      var k := First(store.shards, FreshActiveIn(b, store.Cutoff(now)));
      found := if k.Some? then Resolve.Ok(store.shards[k.value]) else Resolve.Err(NotFound);
    }

    method FailoverStaleActive(b: string, now: int) returns (outcome: Outcome)
      requires store.Valid()
      modifies store`shards, store`config
      ensures store.Valid()
      ensures store.Tables() == Resolve.FailoverStaleActive(old(store.Tables()), b, store.Cutoff(now), now).db
      ensures outcome == Resolve.FailoverStaleActive(old(store.Tables()), b, store.Cutoff(now), now).outcome
    {
      hide Inv, First;
      if !Any(store.shards, StaleActiveIn(b, store.Cutoff(now))) {
        return Done;
      }
      outcome := store.SealRotate(b, now);
      if outcome == NotFound || outcome == Conflict {
        outcome := Done;
      }
    }

    method EnsureActive(b: string, now: int) returns (found: Resolve.Answer<Shard>)
      requires store.Valid()
      modifies store`shards, store`config
      ensures store.Valid()
      ensures Resolve.Resolved(store.Tables(), found)
              == Resolve.EnsureActive(old(store.Tables()), b, store.Cutoff(now), now)
      ensures old(OneWriterPerBucket(store.shards)) ==>
                && (found.Ok? <==> old(Resolve.CanServe(store.Tables(), b, store.Cutoff(now))))
                && (found.Ok? ==>
                      found.value in store.shards && Matches(FreshActiveIn(b, store.Cutoff(now)), found.value))
                && OneWriterPerBucket(store.shards)
    {
      hide OneWriterPerBucket, Inv;
      if OneWriterPerBucket(store.shards) {
        Resolve.EnsureActiveExactly(store.Tables(), b, store.Cutoff(now), now);
      }
      hide First, Any, Matches, Resolve.CanServe, Exec, AutoPromote, Resolve.FailoverStaleActive;
      found := ActiveForBucket(b, now);
      if found.Ok? {
        return;
      }
      var outcome := FailoverStaleActive(b, now);
      if outcome != Done {
        return Resolve.Err(outcome);
      }
      found := ActiveForBucket(b, now);
      if found.Ok? {
        return;
      }
      AutoPromoteCall(store.Tables(), b, store.Cutoff(now), now);
      var promoted: Option<nat>;
      outcome, promoted := store.AutoPromoteIfNoActive(b, now);
      if outcome != Done {
        return Resolve.Err(outcome);
      }
      if promoted.Some? {
        return Resolve.Ok(store.shards[promoted.value]);
      }
      found := ActiveForBucket(b, now);
    }

    method ResolveWrite(key: Key, wall: int, now: int) returns (answer: Resolve.Answer<Resolve.WriteResult>)
      requires store.Valid()
      modifies store`shards, store`config, store`configCache
      ensures store.Valid()
      ensures Resolve.Resolved(store.Tables(), answer)
              == Resolve.ResolveWrite(old(store.Tables()), lib, key, wall, store.Cutoff(now), now)
    {
      hide Inv, First, Resolve.Classify, Resolve.EnsureActive;
      var config := store.GetConfig();
      if config.None? {
        return Resolve.Err(NotBootstrapped);
      }
      SpecIsValid(store.Tables());
      var route := Resolve.Classify(lib, config.value, wall, key);
      if route.None? {
        return Resolve.Err(InvalidArgument);
      }
      if route.value.kind == RouteError {
        var k := First(store.shards, ErrorRole);
        if k.None? {
          return Resolve.Err(NotFound);
        }
        return Resolve.Ok(Resolve.ToWriteResult(route.value, store.shards[k.value]));
      }
      var found := EnsureActive(route.value.bucketId, now);
      answer := if found.Ok? then Resolve.Ok(Resolve.ToWriteResult(route.value, found.value))
          else Resolve.Err(found.error);
    }

    method ResolveRead(key: Key, wall: int, now: int) returns (answer: Resolve.Answer<Resolve.ReadResult>)
      requires store.Valid()
      modifies store`shards, store`config, store`configCache
      ensures store.Valid()
      ensures Resolve.Resolved(store.Tables(), answer)
              == Resolve.ResolveRead(old(store.Tables()), lib, key, wall, store.Cutoff(now), now)
    {
      hide Inv, First, Resolve.Classify, Resolve.EnsureActive;
      var config := store.GetConfig();
      if config.None? {
        return Resolve.Err(NotBootstrapped);
      }
      SpecIsValid(store.Tables());
      var route := Resolve.Classify(lib, config.value, wall, key);
      if route.None? {
        return Resolve.Err(InvalidArgument);
      }
      if route.value.kind == RouteError {
        if route.value.reason == BucketEvicted {
          return Resolve.Ok(Resolve.ReadResult(RouteError, "", BucketEvicted, []));
        }
        var k := First(store.shards, ErrorRole);
        if k.None? {
          return Resolve.Err(NotFound);
        }
        return Resolve.Ok(Resolve.ReadResult(RouteError, ERROR_BUCKET_ID, route.value.reason,
            [Resolve.ToReadShard(store.shards[k.value])]));
      }
      var rows := store.Query(ReadableIn(route.value.bucketId, store.Cutoff(now)));
      if |rows| == 0 {
        var found := EnsureActive(route.value.bucketId, now);
        if found.Err? {
          return Resolve.Err(found.error);
        }
        return Resolve.Ok(Resolve.ReadResult(RouteBucket, route.value.bucketId, NoReason,
            [Resolve.ToReadShard(found.value)]));
      }
      var out: seq<Resolve.ReadShard> := [];
      for i := 0 to |rows|
        invariant out == Resolve.ToReadShards(rows[..i])
      {
        assert rows[..i + 1][..i] == rows[..i];
        out := out + [Resolve.ToReadShard(rows[i])];
      }
      assert rows[..|rows|] == rows;
      answer := Resolve.Ok(Resolve.ReadResult(RouteBucket, route.value.bucketId, NoReason, out));
    }
  }

  lemma SpecIsValid(db: Db)
    requires Inv(db) && db.config.Some?
    ensures ValidSpec(db.config.value.config.spec)
  {
  }

  /** The rotation loop of the health tick. */
  method RotateBuckets(store: Store, stale: seq<Shard>, now: int)
    requires store.Valid()
    modifies store`shards, store`config
    ensures store.Valid()
    ensures store.Tables() == Supervisors.RotateAll(old(store.Tables()), stale, now)
  {
    hide Inv, SealRotate;
    for i := 0 to |stale|
      invariant store.Valid()
      invariant store.Tables() == Supervisors.RotateAll(old(store.Tables()), stale[..i], now)
    {
      assert stale[..i + 1][..i] == stale[..i];
      if stale[i].bucket.Some? {
        var _ := store.SealRotate(stale[i].bucket.value, now);
      }
    }
    assert stale[..|stale|] == stale;
  }

  /** internal/health tick: rotates every bucket whose active is stale. */
  method HealthTick(store: Store, now: int)
    requires store.Valid()
    modifies store`shards, store`config
    ensures store.Valid()
    ensures store.Tables() == Supervisors.HealthTick(old(store.Tables()), store.Cutoff(now), now)
    ensures old(OneWriterPerBucket(store.shards)) ==>
              && OneWriterPerBucket(store.shards) && |store.shards| == |old(store.shards)|
              && forall k :: 0 <= k < |store.shards| ==>
                   Ticks.HealthColumns(old(store.shards)[k], store.shards[k], now - store.heartbeatTimeout, now)
    ensures Ticks.HandedOver(old(store.shards), store.shards)
  {
    hide Inv, OneWriterPerBucket, Supervisors.RotateAll, Supervisors.HealthOutcome, Select, Ticks.HealthColumns,
        Ticks.HandedOver;
    var stale := store.Query(StaleActiveAnywhere(store.Cutoff(now)));
    RotateBuckets(store, stale, now);
    if old(OneWriterPerBucket(store.shards)) {
      Supervisors.HealthTickEffect(old(store.Tables()), store.Cutoff(now), now);
      Ticks.HealthTickColumns(old(store.Tables()), store.Cutoff(now), now);
    }
    Ticks.HealthTickHandsOver(old(store.Tables()), store.Cutoff(now), now);
  }

  /** The first loop of the seal tick: completes the drains that are over. */
  method CompleteDrains(store: Store, draining: seq<Shard>, wall: int, drainTimeout: int, now: int)
    requires store.Valid()
    modifies store`shards, store`config
    ensures store.Valid()
    ensures store.Tables() == Supervisors.CompleteAll(old(store.Tables()), draining, wall, drainTimeout, now)
  {
    hide Inv, CompleteDrainSeal;
    for i := 0 to |draining|
      invariant store.Valid()
      invariant store.Tables() == Supervisors.CompleteAll(old(store.Tables()), draining[..i], wall, drainTimeout, now)
    {
      assert draining[..i + 1][..i] == draining[..i];
      var sh := draining[i];
      if sh.bucket.Some? {
        var ready := sh.drainReady;
        if !ready && sh.drainStarted.Some? && wall - sh.drainStarted.value >= drainTimeout {
          ready := true;
        }
        if ready {
          var _ := store.CompleteDrainSeal(sh.bucket.value, now);
        }
      }
    }
    assert draining[..|draining|] == draining;
  }

  /** The second loop of the seal tick: starts draining the full shards. */
  method StartDrains(store: Store, need: seq<Shard>, now: int)
    requires store.Valid()
    modifies store`shards, store`config
    ensures store.Valid()
    ensures store.Tables() == Supervisors.DrainAll(old(store.Tables()), need, now)
  {
    hide Inv, BeginDrain;
    for i := 0 to |need|
      invariant store.Valid()
      invariant store.Tables() == Supervisors.DrainAll(old(store.Tables()), need[..i], now)
    {
      assert need[..i + 1][..i] == need[..i];
      if need[i].bucket.Some? {
        var _ := store.BeginDrain(need[i].bucket.value, now);
      }
    }
    assert need[..|need|] == need;
  }

  /** internal/seal tick: completes drains that are over, then starts draining full shards. */
  method SealTick(store: Store, wall: int, drainTimeout: int, now: int)
    requires store.Valid()
    modifies store`shards, store`config, store`configCache
    ensures store.Valid()
    ensures old(store.config).None? ==> store.Tables() == old(store.Tables())
    ensures old(store.config).Some? ==>
              store.Tables() == Supervisors.SealTick(old(store.Tables()),
                  old(store.config).value.config.shardMaxBytes, wall, drainTimeout, now)
    ensures old(OneWriterPerBucket(store.shards)) && old(store.config).Some? ==>
              && OneWriterPerBucket(store.shards) && |store.shards| == |old(store.shards)|
              && Ticks.HandedOver(old(store.shards), store.shards)
              && forall k :: 0 <= k < |store.shards| ==>
                   Ticks.SealColumns(old(store.shards)[k], store.shards[k],
                       old(store.config).value.config.shardMaxBytes, wall, drainTimeout, now)
  {
    hide Inv, OneWriterPerBucket, Select, Supervisors.KeepFull, Supervisors.CompleteAll, Supervisors.DrainAll,
        Supervisors.SealOutcome, Ticks.SealColumns, Ticks.HandedOver;
    var config := store.GetConfig();
    if config.None? {
      return;
    }
    var draining := store.Query(DrainingAnywhere);
    CompleteDrains(store, draining, wall, drainTimeout, now);
    var need := store.ShardsNeedingSeal(config.value.shardMaxBytes);
    StartDrains(store, need, now);
    if old(OneWriterPerBucket(store.shards)) {
      Supervisors.SealTickEffect(old(store.Tables()), config.value.shardMaxBytes, wall, drainTimeout, now);
      Ticks.SealTickColumns(old(store.Tables()), config.value.shardMaxBytes, wall, drainTimeout, now);
      Ticks.SealTickHandsOver(old(store.Tables()), config.value.shardMaxBytes, wall, drainTimeout, now);
    }
  }

  /** A retention tick at `wall` moves this row. */
  predicate Retired(db: Db, wall: int, r: Shard) {
    && db.config.Some? && db.config.value.config.retentionDepth.Some?
    && r.role == Data && r.state == Sealed && r.bucket.Some?
    && Evicted(db.config.value.config.spec, wall, db.config.value.config.retentionDepth.value, r.bucket.value)
    && !Any(db.shards, WriterIn(r.bucket.value))
  }

  lemma OnlyTimeBucketsAreEvicted(db: Db, wall: int)
    requires db.config.Some? && !db.config.value.config.spec.TimeAxis?
    ensures forall r :: !Retired(db, wall, r)
  {
  }

  lemma RetiredColumns(db: Db, wall: int, r: Shard)
    ensures Ticks.RetentionColumns(db, wall, r, if Retired(db, wall, r) then Assigned(ToCleaning, r) else r)
  {
    if r.bucket.Some? {
      Ticks.HeldClause(db.shards, r.bucket.value);
    }
    hide Index, CurrentIndex, Any, Ticks.Held;
  }

  lemma RowsRetired(db: Db, wall: int, rows: seq<Shard>)
    requires |rows| == |db.shards|
    requires forall k :: 0 <= k < |rows| ==>
               rows[k] == if Retired(db, wall, db.shards[k]) then Assigned(ToCleaning, db.shards[k]) else db.shards[k]
    ensures forall k :: 0 <= k < |rows| ==> Ticks.RetentionColumns(db, wall, db.shards[k], rows[k])
  {
    hide Retired, Ticks.RetentionColumns;
    forall k | 0 <= k < |rows|
      ensures Ticks.RetentionColumns(db, wall, db.shards[k], rows[k])
    {
      RetiredColumns(db, wall, db.shards[k]);
    }
  }

  /** internal/retention tick: exactly the sealed shards of evicted buckets without writers start cleaning. */
  method RetentionTick(store: Store, wall: int, now: int) returns (outcome: Outcome)
    requires store.Valid()
    modifies store`shards, store`config, store`configCache
    ensures store.Valid()
    ensures |store.shards| == |old(store.shards)|
    ensures forall k :: 0 <= k < |store.shards| ==>
              Ticks.RetentionColumns(old(store.Tables()), wall, old(store.shards)[k], store.shards[k])
    ensures outcome == NotBootstrapped <==> old(store.config).None?
  {
    hide Inv, Index, CurrentIndex, First, Ticks.RetentionColumns;
    var config := store.GetConfig();
    if config.None? {
      RowsRetired(store.Tables(), wall, store.shards);
      return NotBootstrapped;
    }
    if !config.value.spec.TimeAxis? || config.value.retentionDepth.None? {
      if !config.value.spec.TimeAxis? {
        OnlyTimeBucketsAreEvicted(store.Tables(), wall);
      }
      RowsRetired(store.Tables(), wall, store.shards);
      return Done;
    }
    var known := store.DistinctBucketIDs();
    var evict := BucketsOutsideRetention(config.value.spec, wall, config.value.retentionDepth.value, known);
    if evict.None? {
      RowsRetired(store.Tables(), wall, store.shards);
      return InvalidArgument;
    }
    CleanBuckets(store, evict.value, now);
    Supervisors.CleanFold(old(store.Tables()), evict.value);
    RowsRetired(old(store.Tables()), wall, store.shards);
    hide Supervisors.CleanAll, Evicted, Any;
    outcome := Done;
  }

  /** The loop of the retention tick. */
  method CleanBuckets(store: Store, evict: seq<string>, now: int)
    requires store.Valid()
    modifies store`shards, store`config
    ensures store.Valid()
    ensures store.Tables() == Supervisors.CleanAll(old(store.Tables()), evict)
  {
    hide Inv, MarkBucketCleaning, First;
    for i := 0 to |evict|
      invariant store.Valid()
      invariant store.Tables() == Supervisors.CleanAll(old(store.Tables()), evict[..i])
    {
      assert evict[..i + 1][..i] == evict[..i];
      if !Any(store.shards, WriterIn(evict[i])) {
        var _ := store.MarkBucketCleaning(evict[i], now);
      }
    }
    assert evict[..|evict|] == evict;
  }
}

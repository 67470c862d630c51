/**
 One tick of each supervisor, column by column: which heartbeats, limits, deadlines and ages count, and that no bucket
 is left without a writer while the pool lasts.
 */
module Ticks {
  import opened Common
  import opened Fsm
  import opened Bucket
  import opened Routing
  import opened Table
  import opened Transactions
  import opened Lifecycle
  import opened OneWriter
  import opened Effects
  import opened Supervisors

  // ---- health: heartbeats ------------------------------------------------------------------------------------

  /** The active of some bucket. */
  predicate Serves(r: Shard) {
    r.role == Data && r.state == Active && r.bucket.Some?
  }

  /** Seen at the cutoff or later. */
  predicate Heard(r: Shard, cutoff: int) {
    r.lastSeen.Some? && cutoff <= r.lastSeen.value
  }

  /** The pool row stayed, or was promoted. */
  predicate StayedOrPromoted(r: Shard, s: Shard, now: int) {
    s == r || (s.bucket.Some? && s == Effects.Promoted(r, s.bucket.value, now))
  }

  /** A silent active is sealed, one heard of is untouched; pool rows stay or are promoted; no other row changes. */
  predicate HealthColumns(r: Shard, s: Shard, cutoff: int, now: int) {
    if Serves(r) then s == if Heard(r, cutoff) then r else r.(state := Sealed, version := r.version + 1)
    else if InPool(r) then StayedOrPromoted(r, s, now)
    else s == r
  }

  lemma HealthOutcomeColumns(r: Shard, s: Shard, cutoff: int, now: int)
    requires HealthOutcome(r, s, cutoff, now)
    ensures HealthColumns(r, s, cutoff, now)
  {
  }

  lemma HealthTickColumns(db: Db, cutoff: int, now: int)
    requires Inv(db) && OneWriterPerBucket(db.shards) && cutoff <= now
    ensures var d := HealthTick(db, cutoff, now);
            && |d.shards| == |db.shards|
            && forall k :: 0 <= k < |db.shards| ==> HealthColumns(db.shards[k], d.shards[k], cutoff, now)
  {
    hide Inv, OneWriterPerBucket, HealthTick, HealthOutcome, HealthColumns;
    HealthTickEffect(db, cutoff, now);
    var d := HealthTick(db, cutoff, now);
    forall k | 0 <= k < |db.shards|
      ensures HealthColumns(db.shards[k], d.shards[k], cutoff, now)
    {
      HealthOutcomeColumns(db.shards[k], d.shards[k], cutoff, now);
    }
  }

  // ---- seal: limits and deadlines --------------------------------------------------------------------------------

  predicate Drains(r: Shard) {
    r.role == Data && r.state == Draining && r.bucket.Some?
  }

  /** At or over its own limit, or over the cluster's if it has none. */
  predicate OverLimit(r: Shard, defaultMax: int) {
    match r.maxBytes
    case Some(own) => own <= r.reportedBytes
    case None => defaultMax <= r.reportedBytes
  }

  /** Reported ready, or draining for the timeout or longer. */
  predicate DrainIsDue(r: Shard, wall: int, timeout: int) {
    r.drainReady || (r.drainStarted.Some? && r.drainStarted.value + timeout <= wall)
  }

  function EndedDraining(r: Shard): Shard {
    r.(state := Sealed, drainReady := false, version := r.version + 1)
  }

  /**
   A drain that is due is sealed, one that is not goes on; a full active starts draining; a pool row stays, is promoted,
   or, over its limit by an old report, is promoted and set draining; no other row changes.
   */
  predicate SealColumns(r: Shard, s: Shard, defaultMax: int, wall: int, timeout: int, now: int) {
    if Drains(r) then
      s == if DrainIsDue(r, wall, timeout) then EndedDraining(r) else r
    else if Serves(r) then s == if OverLimit(r, defaultMax) then StartedDraining(r, now) else r
    else if InPool(r) then
      || s == r
      || (s.bucket.Some? && var p := Effects.Promoted(r, s.bucket.value, now);
          s == if OverLimit(r, defaultMax) then StartedDraining(p, now) else p)
    else s == r
  }

  lemma SealOutcomeColumns(r: Shard, s: Shard, defaultMax: int, wall: int, timeout: int, now: int)
    requires SealOutcome(r, s, defaultMax, wall, timeout, now)
    ensures SealColumns(r, s, defaultMax, wall, timeout, now)
  {
  }

  lemma SealTickColumns(db: Db, defaultMax: int, wall: int, timeout: int, now: int)
    requires Inv(db) && OneWriterPerBucket(db.shards)
    ensures var d := SealTick(db, defaultMax, wall, timeout, now);
            && |d.shards| == |db.shards|
            && forall k :: 0 <= k < |db.shards| ==>
                 SealColumns(db.shards[k], d.shards[k], defaultMax, wall, timeout, now)
  {
    hide Inv, OneWriterPerBucket, SealTick, SealOutcome, SealColumns;
    SealTickEffect(db, defaultMax, wall, timeout, now);
    var d := SealTick(db, defaultMax, wall, timeout, now);
    forall k | 0 <= k < |db.shards|
      ensures SealColumns(db.shards[k], d.shards[k], defaultMax, wall, timeout, now)
    {
      SealOutcomeColumns(db.shards[k], d.shards[k], defaultMax, wall, timeout, now);
    }
  }

  /** The first loop alone: exactly the drains that are due end sealed, pool rows stay or are promoted. */
  predicate CompletionColumns(r: Shard, s: Shard, wall: int, timeout: int, now: int) {
    if Drains(r) then
      s == if DrainIsDue(r, wall, timeout) then EndedDraining(r) else r
    else if InPool(r) then StayedOrPromoted(r, s, now)
    else s == r
  }

  lemma CompletionLoopColumns(db: Db, wall: int, timeout: int, now: int)
    requires Inv(db) && OneWriterPerBucket(db.shards)
    ensures var d := CompleteAll(db, Select(db.shards, DrainingAnywhere), wall, timeout, now);
            && |d.shards| == |db.shards|
            && forall k :: 0 <= k < |db.shards| ==> CompletionColumns(db.shards[k], d.shards[k], wall, timeout, now)
  {
    hide Inv, OneWriterPerBucket, CompleteAll, DrainRow, CompletionColumns;
    var list := Select(db.shards, DrainingAnywhere);
    SelectIsSubList(db.shards, DrainingAnywhere);
    var at := SubListPositions(list, db.shards);
    DrainsListed(db.shards, list);
    hide Select;
    CompleteFold(db, list, at, wall, timeout, now);
    var d := CompleteAll(db, list, wall, timeout, now);
    forall k | 0 <= k < |db.shards|
      ensures CompletionColumns(db.shards[k], d.shards[k], wall, timeout, now)
    {
      DrainRowColumns(db.shards[k], d.shards[k], list, wall, timeout, now);
    }
  }

  lemma DrainRowColumns(r: Shard, s: Shard, list: seq<Shard>, wall: int, timeout: int, now: int)
    requires DrainRow(r, s, list, wall, timeout, now) && (BucketedDraining(r) ==> r in list)
    ensures CompletionColumns(r, s, wall, timeout, now)
  {
  }

  // ---- no bucket is left alone -------------------------------------------------------------------------------------

  /** A shard that takes the bucket's writes, or still drains them. */
  predicate Held(rows: seq<Shard>, b: string) {
    exists k :: 0 <= k < |rows| && (ActiveFor(rows[k], b) || DrainingFor(rows[k], b))
  }

  /** Every bucket that had a writer has one, or the pool ran dry. */
  ghost predicate HandedOver(rows: seq<Shard>, next: seq<Shard>) {
    SomeStandby(next) ==> forall b :: Held(rows, b) ==> Held(next, b)
  }

  lemma RotationHandsOver(db: Db, b: string, now: int)
    requires Inv(db)
    ensures HandedOver(db.shards, SealRotate(db, b, now).db.shards)
    ensures SomeStandby(SealRotate(db, b, now).db.shards) ==> SomeStandby(db.shards)
  {
    hide SealRotate, Inv;
    RotationColumns(db, b, now);
    var next := Exec(db, CallSealRotate(b), now).db.shards;
    assert next == SealRotate(db, b, now).db.shards;
    hide Exec;
    if next != db.shards && SomeStandby(next) {
      PoolShrinks(db.shards, next);
      RotationIsHandedOver(db, b, now);
      OthersStay(db.shards, next, b);
    }
    hide NextInLine, InPool;
  }

  /** Each pool row of the new table was one before. */
  lemma PoolShrinks(rows: seq<Shard>, next: seq<Shard>)
    requires |next| == |rows| && forall k :: 0 <= k < |rows| && InPool(next[k]) ==> InPool(rows[k])
    ensures SomeStandby(next) ==> SomeStandby(rows)
  {
  }

  /** The bucket `b` has an active; the writers of other buckets did not change. */
  lemma OthersStay(rows: seq<Shard>, next: seq<Shard>, b: string)
    requires |next| == |rows| && SomeActive(next, b)
    requires forall k, c :: 0 <= k < |rows| && c != b && (ActiveFor(rows[k], c) || DrainingFor(rows[k], c)) ==>
               next[k] == rows[k]
    ensures forall c :: Held(rows, c) ==> Held(next, c)
  {
    forall c | Held(rows, c)
      ensures Held(next, c)
    {
      if c != b {
        var k :| 0 <= k < |rows| && (ActiveFor(rows[k], c) || DrainingFor(rows[k], c));
        assert next[k] == rows[k];
      }
    }
  }

  lemma CompletionHandsOver(db: Db, b: string, now: int)
    requires Inv(db) && OneWriterPerBucket(db.shards)
    ensures HandedOver(db.shards, CompleteDrainSeal(db, b, now).db.shards)
    ensures SomeStandby(CompleteDrainSeal(db, b, now).db.shards) ==> SomeStandby(db.shards)
  {
    hide CompleteDrainSeal, Inv, OneWriterPerBucket;
    DrainCompletionColumns(db, b, now);
    var next := Exec(db, CallCompleteDrainSeal(b), now).db.shards;
    assert next == CompleteDrainSeal(db, b, now).db.shards;
    hide Exec;
    if next != db.shards && SomeStandby(next) {
      PoolShrinks(db.shards, next);
      DrainIsHandedOver(db, b, now);
      OthersStay(db.shards, next, b);
    }
    hide NextInLine, InPool;
  }

  /** Starting a drain keeps the bucket's writer and the pool. */
  lemma DrainStartHandsOver(db: Db, b: string, now: int)
    ensures HandedOver(db.shards, BeginDrain(db, b, now).db.shards)
    ensures SomeStandby(BeginDrain(db, b, now).db.shards) ==> SomeStandby(db.shards)
  {
    hide BeginDrain;
    DrainStartColumns(db, b, now);
    var next := Exec(db, CallBeginDrain(b), now).db.shards;
    assert next == BeginDrain(db, b, now).db.shards;
    hide Exec;
    PoolShrinks(db.shards, next);
    forall c | Held(db.shards, c)
      ensures Held(next, c)
    {
      var k :| 0 <= k < |db.shards| && (ActiveFor(db.shards[k], c) || DrainingFor(db.shards[k], c));
      assert ActiveFor(next[k], c) || DrainingFor(next[k], c);
    }
  }

  lemma HandedOverTwice(a: seq<Shard>, b: seq<Shard>, c: seq<Shard>)
    requires HandedOver(a, b) && HandedOver(b, c)
    requires (SomeStandby(c) ==> SomeStandby(b)) && (SomeStandby(b) ==> SomeStandby(a))
    ensures HandedOver(a, c) && (SomeStandby(c) ==> SomeStandby(a))
  {
    hide SomeStandby, Held;
  }

  lemma {:induction false} RotateAllHandsOver(db: Db, list: seq<Shard>, now: int)
    requires Inv(db)
    ensures var d := RotateAll(db, list, now);
            Inv(d) && HandedOver(db.shards, d.shards) && (SomeStandby(d.shards) ==> SomeStandby(db.shards))
  {
    hide Inv, HandedOver, SomeStandby, SealRotate;
    if |list| == 0 {
      HandedOverToItself(db.shards);
    } else {
      var n := |list| - 1;
      RotateAllHandsOver(db, list[..n], now);
      var d := RotateAll(db, list[..n], now);
      if list[n].bucket.Some? {
        RotationHandsOver(d, list[n].bucket.value, now);
        SealRotateRefines(d, list[n].bucket.value, now);
        HandedOverTwice(db.shards, d.shards, RotateAll(db, list, now).shards);
      }
    }
  }

  lemma HandedOverToItself(rows: seq<Shard>)
    ensures HandedOver(rows, rows)
  {
  }

  lemma {:induction false} CompleteAllHandsOver(db: Db, list: seq<Shard>, wall: int, timeout: int, now: int)
    requires Inv(db) && OneWriterPerBucket(db.shards)
    ensures var d := CompleteAll(db, list, wall, timeout, now);
            && Inv(d) && OneWriterPerBucket(d.shards)
            && HandedOver(db.shards, d.shards) && (SomeStandby(d.shards) ==> SomeStandby(db.shards))
  {
    hide Inv, OneWriterPerBucket, HandedOver, SomeStandby, CompleteDrainSeal, DrainOver;
    if |list| == 0 {
      HandedOverToItself(db.shards);
    } else {
      var n := |list| - 1;
      CompleteAllHandsOver(db, list[..n], wall, timeout, now);
      var d := CompleteAll(db, list[..n], wall, timeout, now);
      if list[n].bucket.Some? && DrainOver(list[n], wall, timeout) {
        CompletionHandsOver(d, list[n].bucket.value, now);
        CompleteDrainSealRefines(d, list[n].bucket.value, now);
        CompleteDrainSealStep(d, list[n].bucket.value, now);
        HandedOverTwice(db.shards, d.shards, CompleteAll(db, list, wall, timeout, now).shards);
      }
    }
  }

  lemma {:induction false} DrainAllHandsOver(db: Db, list: seq<Shard>, now: int)
    ensures var d := DrainAll(db, list, now);
            HandedOver(db.shards, d.shards) && (SomeStandby(d.shards) ==> SomeStandby(db.shards))
  {
    hide HandedOver, SomeStandby, BeginDrain;
    if |list| == 0 {
      HandedOverToItself(db.shards);
    } else {
      var n := |list| - 1;
      DrainAllHandsOver(db, list[..n], now);
      var d := DrainAll(db, list[..n], now);
      if list[n].bucket.Some? {
        DrainStartHandsOver(d, list[n].bucket.value, now);
        HandedOverTwice(db.shards, d.shards, DrainAll(db, list, now).shards);
      }
    }
  }

  /** If a standby is left after a health tick, every bucket that had a writer before has one. */
  lemma HealthTickHandsOver(db: Db, cutoff: int, now: int)
    requires Inv(db)
    ensures HandedOver(db.shards, HealthTick(db, cutoff, now).shards)
  {
    hide Inv, HandedOver, RotateAll, SomeStandby;
    RotateAllHandsOver(db, Select(db.shards, StaleActiveAnywhere(cutoff)), now);
  }

  /** If a standby is left after a seal tick, every bucket that had a writer before has one. */
  lemma SealTickHandsOver(db: Db, defaultMax: int, wall: int, timeout: int, now: int)
    requires Inv(db) && OneWriterPerBucket(db.shards)
    ensures HandedOver(db.shards, SealTick(db, defaultMax, wall, timeout, now).shards)
  {
    hide Inv, OneWriterPerBucket, HandedOver, CompleteAll, DrainAll, SomeStandby;
    var list := Select(db.shards, DrainingAnywhere);
    CompleteAllHandsOver(db, list, wall, timeout, now);
    var d := CompleteAll(db, list, wall, timeout, now);
    var need := KeepFull(Select(d.shards, ActiveAnywhere), defaultMax);
    DrainAllHandsOver(d, need, now);
    HandedOverTwice(db.shards, d.shards, DrainAll(d, need, now).shards);
  }

  // ---- retention: ages ---------------------------------------------------------------------------------------

  /** A time bucket whose index is at least the retention depth behind the clock's. */
  predicate Expired(config: ClusterConfig, wall: int, b: string) {
    && config.spec.TimeAxis? && config.retentionDepth.Some? && b != "" && b != "__error__"
    && Index(config.spec, b).Some? && CurrentIndex(config.spec, wall).Some?
    && Index(config.spec, b).value <= CurrentIndex(config.spec, wall).value - config.retentionDepth.value
  }

  /** A sealed shard of an expired bucket without writers starts cleaning; no other row changes. */
  predicate RetentionColumns(db: Db, wall: int, r: Shard, s: Shard) {
    s == if db.config.Some? && r.role == Data && r.state == Sealed && r.bucket.Some?
            && Expired(db.config.value.config, wall, r.bucket.value) && !Held(db.shards, r.bucket.value)
         then r.(state := Cleaning, version := r.version + 1) else r
  }

  lemma HeldClause(rows: seq<Shard>, b: string)
    ensures Any(rows, WriterIn(b)) <==> Held(rows, b)
  {
    assert forall k :: 0 <= k < |rows| ==>
        (Matches(WriterIn(b), rows[k]) <==> ActiveFor(rows[k], b) || DrainingFor(rows[k], b));
    hide Matches;
  }
}

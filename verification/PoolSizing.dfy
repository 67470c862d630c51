/** Why MinShards shards are enough: a pigeonhole argument over the writable window. */
module PoolSizing {
  import opened Common
  import opened Fsm
  import opened Decimal
  import opened Bucket
  import opened Routing
  import opened Table
  import opened Transactions
  import opened Lifecycle
  import opened OneWriter

  function DataShards(rows: seq<Shard>): set<int> {
    set k | 0 <= k < |rows| && rows[k].role == Data
  }

  /** No bucket holds more than one data shard. */
  predicate OneShardPerBucket(rows: seq<Shard>) {
    forall i, j :: 0 <= i < j < |rows| && rows[i].role == Data && rows[j].role == Data && rows[i].bucket.Some? ==>
      rows[i].bucket != rows[j].bucket
  }

  /** Shards without a bucket wait in the pool. */
  predicate UnassignedAreStandby(rows: seq<Shard>) {
    forall k :: 0 <= k < |rows| && rows[k].role == Data && rows[k].bucket.None? ==> rows[k].state == Standby
  }

  /** Assigned shards serve a bucket of the window, or the one bucket still being cleaned. */
  predicate AtMostOneOutside(rows: seq<Shard>, window: seq<string>, outside: string) {
    forall k :: 0 <= k < |rows| && rows[k].role == Data && rows[k].bucket.Some? ==>
      rows[k].bucket.value in window || rows[k].bucket.value == outside
  }

  /** Shards that all hold different buckets are no more than the buckets. */
  lemma {:induction false} DistinctBuckets(rows: seq<Shard>, holders: set<int>, buckets: set<string>)
    requires OneShardPerBucket(rows) && holders <= DataShards(rows)
    requires forall k :: k in holders ==> rows[k].bucket.Some? && rows[k].bucket.value in buckets
    ensures |holders| <= |buckets|
  {
    if holders != {} {
      var k :| k in holders;
      var c := rows[k].bucket.value;
      forall j | j in holders - {k}
        ensures rows[j].bucket.value in buckets - {c}
      {
        assert if j < k then rows[j].bucket != rows[k].bucket else rows[k].bucket != rows[j].bucket;
      }
      DistinctBuckets(rows, holders - {k}, buckets - {c});
    }
  }

  function Elements(s: seq<string>): (out: set<string>)
    ensures |out| <= |s|
    ensures forall x :: x in out <==> x in s
  {
    if |s| == 0 then {}
    else
      assert s == s[..|s| - 1] + [s[|s| - 1]];
      Elements(s[..|s| - 1]) + {s[|s| - 1]}
  }

  /** With one shard more than the window has buckets, a bucket of the window without a shard finds a standby. */
  lemma StandbyLeft(rows: seq<Shard>, window: seq<string>, outside: string, b: string)
    requires OneShardPerBucket(rows) && UnassignedAreStandby(rows) && AtMostOneOutside(rows, window, outside)
    requires |DataShards(rows)| > |window| && b in window
    requires forall k :: 0 <= k < |rows| ==> !InBucket(rows[k], b)
    ensures Any(rows, StandbyPool)
  {
    if !Any(rows, StandbyPool) {
      var buckets := Elements(window) - {b} + {outside};
      forall k | k in DataShards(rows)
        ensures rows[k].bucket.Some? && rows[k].bucket.value in buckets
      {
        assert !Matches(StandbyPool, rows[k]) && !InBucket(rows[k], b);
      }
      DistinctBuckets(rows, DataShards(rows), buckets);
    }
  }

  /**
   Pool sizing: MinShards - 1 data shards suffice. Whenever no bucket holds two shards, unassigned shards are standby
   and at most one bucket outside the window is still held, promotion for any writable bucket without a shard succeeds.
   */
  lemma MinShardsSuffice(db: Db, lib: Lib, unit: TimeUnit, now: int, cur: int, depth: nat, maxFuture: nat,
                         outside: string, b: string, dbNow: int)
    requires Inv(db)
    requires CurrentIndex(TimeAxis(unit), now) == Some(cur) && RangeNamed(unit, cur - depth + 1, depth + maxFuture)
    requires |DataShards(db.shards)| >= MinShards(depth, maxFuture) - 1
    requires OneShardPerBucket(db.shards) && UnassignedAreStandby(db.shards)
    requires AtMostOneOutside(db.shards, IdRange(unit, cur - depth + 1, depth + maxFuture), outside)
    requires Writable(lib, unit, now, depth, maxFuture, b)
    requires forall k :: 0 <= k < |db.shards| ==> !InBucket(db.shards[k], b)
    ensures PromoteStandby(db, b, dbNow).outcome == Done
  {
    hide Writable, IdRange, RangeNamed, CurrentIndex;
    WritableWindow(lib, unit, now, cur, depth, maxFuture, b);
    StandbyLeft(db.shards, IdRange(unit, cur - depth + 1, depth + maxFuture), outside, b);
    PromotionPasses(db, b, dbNow);
  }

  lemma PromotionPasses(db: Db, b: string, now: int)
    requires Inv(db) && Any(db.shards, StandbyPool)
    requires forall k :: 0 <= k < |db.shards| ==> !InBucket(db.shards[k], b)
    ensures PromoteStandby(db, b, now).outcome == Done
  {
    var k := First(db.shards, StandbyPool).value;
    IndexOnActivation(db.shards, k, Assigned(ToActive(b, now), db.shards[k]), b);
  }

  // ---- and none to spare ---------------------------------------------------------------------------------------

  /** A sealed shard in each bucket of the window but the `j`-th, whose shard still holds `outside`. */
  function FullHouse(window: seq<string>, j: nat, outside: string): seq<Shard> {
    seq(|window|, i requires 0 <= i < |window| =>
      Shard(i, PrintInt(i), Data, Some(if i == j then outside else window[i]), Sealed,
            "", None, 0, None, None, None, false, 1))
  }

  lemma {:induction false} AllAreData(rows: seq<Shard>)
    requires forall k :: 0 <= k < |rows| ==> rows[k].role == Data
    ensures |DataShards(rows)| == |rows|
  {
    if |rows| > 0 {
      var n := |rows| - 1;
      AllAreData(rows[..n]);
      assert DataShards(rows) == DataShards(rows[..n]) + {n};
    }
  }

  /** With one data shard less, all else equal, a writable bucket can find the pool empty: MinShards is exact. */
  lemma MinShardsIsTight(unit: TimeUnit, cur: int, depth: nat, maxFuture: nat, j: nat, outside: string, dbNow: int)
    returns (db: Db)
    requires RangeNamed(unit, cur - depth + 1, depth + maxFuture) && j < depth + maxFuture
    requires outside !in IdRange(unit, cur - depth + 1, depth + maxFuture)
    ensures var window := IdRange(unit, cur - depth + 1, depth + maxFuture);
            && Inv(db) && |DataShards(db.shards)| == MinShards(depth, maxFuture) - 2
            && OneShardPerBucket(db.shards) && UnassignedAreStandby(db.shards)
            && AtMostOneOutside(db.shards, window, outside)
            && (forall k :: 0 <= k < |db.shards| ==> !InBucket(db.shards[k], window[j]))
            && PromoteStandby(db, window[j], dbNow).outcome == NotFound
  {
    hide RangeNamed, IdRange;
    var window := IdRange(unit, cur - depth + 1, depth + maxFuture);
    IdRangeDistinct(unit, cur - depth + 1, depth + maxFuture);
    db := Db(FullHouse(window, j, outside), None, |window|);
    FullHouseFits(window, j, outside);
  }

  lemma FullHouseFits(window: seq<string>, j: nat, outside: string)
    requires NoDuplicates(window) && j < |window| && outside !in window
    ensures var db := Db(FullHouse(window, j, outside), None, |window|);
            && Inv(db) && |DataShards(db.shards)| == |window| && !Any(db.shards, StandbyPool)
            && OneShardPerBucket(db.shards) && UnassignedAreStandby(db.shards)
            && AtMostOneOutside(db.shards, window, outside)
            && forall k :: 0 <= k < |db.shards| ==> !InBucket(db.shards[k], window[j])
  {
    var rows := FullHouse(window, j, outside);
    AllAreData(rows);
    forall a, b | 0 <= a < b < |rows|
      ensures RowsApart(rows[a], rows[b])
    {
      if PrintInt(a) == PrintInt(b) { PrintIntInjective(a, b); }
    }
    assert forall k :: 0 <= k < |rows| ==> !Matches(StandbyPool, rows[k]);
    hide PrintInt, First;
  }
}

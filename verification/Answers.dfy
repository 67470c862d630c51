/**
 What the resolver answers, in terms of keys, ages and columns: where a key is routed under a cluster's configuration,
 and which shard, list or error a write and a read of it get.
 */
module Answers {
  import opened Common
  import opened Fsm
  import opened Bucket
  import opened TimeBuckets
  import opened Routing
  import opened Table
  import opened Transactions
  import opened Lifecycle
  import opened OneWriter
  import opened Resolve
  import opened Topology
  import opened LocalResolve
  import Supervisors
  import Effects
  import Ticks

  // ---- routing under a configuration ----------------------------------------------------------------------------

  function Depth(config: ClusterConfig): int {
    match config.retentionDepth case Some(n) => n case None => 0
  }

  function Future(config: ClusterConfig): int {
    match config.maxFuture case Some(n) => n case None => 0
  }

  /** Index of the key's own bucket. */
  function KeyIndex(lib: Lib, unit: TimeUnit, key: Key): Option<int> {
    match ID(lib, TimeAxis(unit), key) case Some(id) => Index(TimeAxis(unit), id) case None => None
  }

  /**
   Every outcome of routing a time key: its own bucket inside the window of the cluster's own depth and future, an error
   for each of the four reasons outside it, and no answer when the clock has no bucket.
   */
  lemma RouteExactly(lib: Lib, config: ClusterConfig, unit: TimeUnit, wall: int, key: Key)
    requires config.spec == TimeAxis(unit)
    ensures var route := Classify(lib, config, wall, key);
            var own, cur := KeyIndex(lib, unit, key), CurrentIndex(TimeAxis(unit), wall);
            route ==
            if own.None? then Some(WriteRoute(RouteError, "__error__", InvalidShardKey))
            else if cur.None? then None
            else if own.value <= cur.value - Depth(config) then Some(WriteRoute(RouteError, "__error__", BucketEvicted))
            else if own.value <= cur.value || (Future(config) != 0 && own.value <= cur.value + Future(config)) then
              Some(WriteRoute(RouteBucket, ID(lib, TimeAxis(unit), key).value, NoReason))
            else if Future(config) == 0 then Some(WriteRoute(RouteError, "__error__", FutureDisallowed))
            else Some(WriteRoute(RouteError, "__error__", FutureTooFar))
  {
    hide ID, Index, CurrentIndex;
  }

  /** Numeric and hash keys are routed to their bucket, whatever the clock; an unreadable key, to the error shard. */
  lemma RouteByValue(lib: Lib, config: ClusterConfig, wall: int, key: Key)
    requires ValidSpec(config.spec) && !config.spec.TimeAxis?
    ensures Classify(lib, config, wall, key)
            == match ID(lib, config.spec, key)
               case Some(id) => Some(WriteRoute(RouteBucket, id, NoReason))
               case None => Some(WriteRoute(RouteError, "__error__", InvalidShardKey))
  {
    hide ID;
  }

  /**
   In terms of instants: a key that reads as `t` is routed to the bucket of `t` exactly while the period of `t` is less
   than the cluster's depth behind the present one and at most its future ahead.
   */
  lemma RouteOfInstant(lib: Lib, config: ClusterConfig, unit: TimeUnit, wall: int, key: Key, t: int)
    requires config.spec == TimeAxis(unit) && InInt64(wall) && InInt64(t) && Readable(unit, wall) && Readable(unit, t)
    requires ParseTimeKey(lib, key) == Some(t)
    ensures RoutedBucket(lib, config, wall, key) == Some(TimeID(unit, t))
            <==> && Period(unit, t) > Period(unit, wall) - Depth(config)
                 && (Period(unit, t) <= Period(unit, wall) || Period(unit, t) <= Period(unit, wall) + Future(config))
  {
    hide TimeID, Index, CurrentIndex, Classify, Period, ParseTimeKey, Readable;
    RouteExactly(lib, config, unit, wall, key);
    assert ID(lib, TimeAxis(unit), key) == Some(TimeID(unit, t));
    hide ID;
    IndexOfTimeID(unit, t);
    CurrentIndexIsPeriod(unit, wall);
  }

  // ---- an active shard -------------------------------------------------------------------------------------------

  /** Active in the bucket, and heard of at the cutoff or later. */
  predicate Live(r: Shard, b: string, cutoff: int) {
    Effects.ActiveFor(r, b) && Ticks.Heard(r, cutoff)
  }

  predicate SomeLive(rows: seq<Shard>, b: string, cutoff: int) {
    exists k :: 0 <= k < |rows| && Live(rows[k], b, cutoff)
  }

  predicate SomeDraining(rows: seq<Shard>, b: string) {
    exists k :: 0 <= k < |rows| && Effects.DrainingFor(rows[k], b)
  }

  lemma LiveClause(rows: seq<Shard>, b: string, cutoff: int)
    ensures Any(rows, FreshActiveIn(b, cutoff)) <==> SomeLive(rows, b, cutoff)
  {
    assert forall k :: 0 <= k < |rows| ==> (Matches(FreshActiveIn(b, cutoff), rows[k]) <==> Live(rows[k], b, cutoff));
    hide Matches, Live;
  }

  lemma DrainingClause(rows: seq<Shard>, b: string)
    ensures Any(rows, DrainingIn(b)) <==> SomeDraining(rows, b)
  {
    Effects.DrainingClause(rows, b);
  }

  lemma PoolClause(rows: seq<Shard>)
    ensures Any(rows, StandbyPool) <==> Effects.SomeStandby(rows)
  {
    Effects.PoolClause(rows);
  }

  /**
   A call gets a shard exactly if one is live, or nothing drains and a standby is left; the shard is then live, so never
   one that has been silent since before the cutoff; otherwise the answer is NotFound.
   */
  lemma ActiveAnswer(db: Db, b: string, cutoff: int, now: int)
    requires Inv(db) && OneWriterPerBucket(db.shards) && cutoff <= now
    ensures var e := EnsureActive(db, b, cutoff, now);
            if SomeLive(db.shards, b, cutoff) || (!SomeDraining(db.shards, b) && Effects.SomeStandby(db.shards))
            then e.answer.Ok? && e.answer.value in e.db.shards && Live(e.answer.value, b, cutoff)
            else e.answer == Err(NotFound)
  {
    hide Inv, OneWriterPerBucket, EnsureActive, First, Any;
    EnsureActiveExactly(db, b, cutoff, now);
    LiveClause(db.shards, b, cutoff);
    DrainingClause(db.shards, b);
    PoolClause(db.shards);
    hide SomeLive, SomeDraining, Effects.SomeStandby;
  }

  /** What the call does to the tables: nothing, a rotation of the silent active, or a promotion. */
  lemma ActiveTables(db: Db, b: string, cutoff: int, now: int)
    requires Inv(db) && OneWriterPerBucket(db.shards) && cutoff <= now
    ensures EnsureActive(db, b, cutoff, now).db
            == if SomeLive(db.shards, b, cutoff) then db
               else if Effects.SomeActive(db.shards, b) then Exec(db, CallSealRotate(b), now).db
               else if SomeDraining(db.shards, b) then db
               else Exec(db, CallPromote(b), now).db
  {
    hide Inv, OneWriterPerBucket, First;
    LiveClause(db.shards, b, cutoff);
    DrainingClause(db.shards, b);
    Effects.ActiveClause(db.shards, b);
    ActiveCases(db.shards, b, cutoff);
    WriterCases(db.shards, b);
    assert Any(db.shards, FreshActiveIn(b, cutoff)) ==> EnsureActive(db, b, cutoff, now).db == db;
    hide Any, SomeLive, SomeDraining, Effects.ActiveFor, PromoteStandby, AutoPromote;
    if Any(db.shards, StaleActiveIn(b, cutoff)) && !Any(db.shards, FreshActiveIn(b, cutoff)) {
      RotatedThen(db, b, cutoff, now);
    } else if !Any(db.shards, FreshActiveIn(b, cutoff)) {
      PromotedThen(db, b, cutoff, now);
    }
  }

  lemma RotatedThen(db: Db, b: string, cutoff: int, now: int)
    requires Inv(db) && OneWriterPerBucket(db.shards) && cutoff <= now
    requires Any(db.shards, StaleActiveIn(b, cutoff)) && !Any(db.shards, FreshActiveIn(b, cutoff))
    ensures EnsureActive(db, b, cutoff, now).db == SealRotate(db, b, now).db
  {
    hide Inv, OneWriterPerBucket, First;
    ActiveCases(db.shards, b, cutoff);
    RotationEffect(db, b, cutoff, now);
    SealRotateStep(db, b, now);
    SealRotateRefines(db, b, now);
    var d := SealRotate(db, b, now).db;
    if !Any(d.shards, FreshActiveIn(b, cutoff)) {
      PromotionEffect(d, b, cutoff, now);
    }
    hide SealRotate, AutoPromote, Any;
  }

  lemma PromotedThen(db: Db, b: string, cutoff: int, now: int)
    requires !Any(db.shards, StaleActiveIn(b, cutoff)) && !Any(db.shards, FreshActiveIn(b, cutoff))
    requires Any(db.shards, WriterIn(b)) <==> Any(db.shards, DrainingIn(b))
    ensures EnsureActive(db, b, cutoff, now).db
            == if Any(db.shards, DrainingIn(b)) then db else PromoteStandby(db, b, now).db
  {
    hide First, PromoteStandby;
  }

  // ---- answers to writes and reads -----------------------------------------------------------------------------

  /** Where clients reach the shard. */
  function Address(r: Shard): string {
    match r.advertiseUrl case None => r.dsn case Some(url) => if url == "" then r.dsn else url
  }

  predicate SomeError(rows: seq<Shard>) {
    exists k :: 0 <= k < |rows| && rows[k].role == Error
  }

  /** The answer names this row, for this route. */
  predicate Names(w: WriteResult, kind: RouteKind, b: string, reason: RouteReason, r: Shard) {
    w == WriteResult(kind, b, reason, r.id, r.uuid, Address(r), r.state)
  }

  /** Before bootstrap, and for a key without a route, a write is refused and nothing changes. */
  lemma WriteRefused(db: Db, lib: Lib, key: Key, wall: int, cutoff: int, now: int)
    requires Inv(db)
    ensures db.config.None? ==> ResolveWrite(db, lib, key, wall, cutoff, now) == Resolved(db, Err(NotBootstrapped))
    ensures db.config.Some? && Classify(lib, db.config.value.config, wall, key).None? ==>
              ResolveWrite(db, lib, key, wall, cutoff, now) == Resolved(db, Err(InvalidArgument))
  {
    hide Classify, EnsureActive;
  }

  /** A write routed to the error bucket gets the error shard and the reason, if there is an error shard. */
  lemma WriteToErrorShard(db: Db, lib: Lib, key: Key, wall: int, cutoff: int, now: int, reason: RouteReason)
    requires Inv(db) && db.config.Some?
    requires Classify(lib, db.config.value.config, wall, key) == Some(WriteRoute(RouteError, "__error__", reason))
    ensures var w := ResolveWrite(db, lib, key, wall, cutoff, now);
            && w.db == db
            && if SomeError(db.shards)
               then w.answer.Ok? && exists k :: 0 <= k < |db.shards| && db.shards[k].role == Error
                                                && Names(w.answer.value, RouteError, "__error__", reason, db.shards[k])
               else w.answer == Err(NotFound)
  {
    hide Classify, EnsureActive, Inv;
    ErrorClause(db.shards);
    var k := First(db.shards, ErrorRole);
    if k.Some? {
      assert db.shards[k.value].role == Error;
    }
    hide First;
  }

  lemma ErrorClause(rows: seq<Shard>)
    ensures First(rows, ErrorRole).Some? <==> SomeError(rows)
  {
    assert forall k :: 0 <= k < |rows| ==> (Matches(ErrorRole, rows[k]) <==> rows[k].role == Error);
    hide Matches;
  }

  /** A write routed to a bucket gets a live shard of it exactly when one can be had, and its address. */
  lemma WriteToBucket(db: Db, lib: Lib, key: Key, wall: int, cutoff: int, now: int, b: string)
    requires Inv(db) && OneWriterPerBucket(db.shards) && cutoff <= now && db.config.Some?
    requires Classify(lib, db.config.value.config, wall, key) == Some(WriteRoute(RouteBucket, b, NoReason))
    ensures var w := ResolveWrite(db, lib, key, wall, cutoff, now);
            && w.db == EnsureActive(db, b, cutoff, now).db
            && if SomeLive(db.shards, b, cutoff) || (!SomeDraining(db.shards, b) && Effects.SomeStandby(db.shards))
               then w.answer.Ok? && exists k :: 0 <= k < |w.db.shards| && Live(w.db.shards[k], b, cutoff)
                                                && Names(w.answer.value, RouteBucket, b, NoReason, w.db.shards[k])
               else w.answer == Err(NotFound)
  {
    hide Classify, EnsureActive, Inv, OneWriterPerBucket, Live, SomeLive, SomeDraining, Effects.SomeStandby;
    ActiveAnswer(db, b, cutoff, now);
    var e := EnsureActive(db, b, cutoff, now);
    if e.answer.Ok? {
      var k :| 0 <= k < |e.db.shards| && e.db.shards[k] == e.answer.value;
    }
  }

  /** The row is in the bucket and holds readable data: sealed, or active and heard of. */
  predicate Holds(r: Shard, b: string, cutoff: int) {
    Effects.SealedFor(r, b) || Live(r, b, cutoff)
  }

  function AsRead(r: Shard): ReadShard {
    ReadShard(r.id, r.uuid, Address(r), r.state)
  }

  predicate Ascending(out: seq<ReadShard>) {
    forall i, j :: 0 <= i < j < |out| ==> out[i].shardId < out[j].shardId
  }

  /** The entry names a row that holds the bucket's data. */
  predicate NamesHolder(e: ReadShard, rows: seq<Shard>, b: string, cutoff: int) {
    exists k :: 0 <= k < |rows| && Holds(rows[k], b, cutoff) && e == AsRead(rows[k])
  }

  /** The list names exactly the rows that hold the bucket's data, by ascending id. */
  ghost predicate Lists(out: seq<ReadShard>, rows: seq<Shard>, b: string, cutoff: int) {
    && Ascending(out)
    && (forall i :: 0 <= i < |out| ==> NamesHolder(out[i], rows, b, cutoff))
    && (forall k :: 0 <= k < |rows| && Holds(rows[k], b, cutoff) ==> AsRead(rows[k]) in out)
  }

  predicate SomeHolds(rows: seq<Shard>, b: string, cutoff: int) {
    exists k :: 0 <= k < |rows| && Holds(rows[k], b, cutoff)
  }

  lemma HoldsClause(r: Shard, b: string, cutoff: int)
    ensures Matches(ReadableIn(b, cutoff), r) <==> Holds(r, b, cutoff)
    ensures ToReadShard(r) == AsRead(r)
  {
  }

  lemma SelectionLists(db: Db, b: string, cutoff: int)
    requires Inv(db)
    ensures var rows := Select(db.shards, ReadableIn(b, cutoff));
            (|rows| > 0 <==> SomeHolds(db.shards, b, cutoff)) && Lists(ToReadShards(rows), db.shards, b, cutoff)
  {
    hide Holds, Matches, Inv, AsRead, ToReadShard, Select, Supervisors.SubList, ToReadShards, Lists;
    var rows := Select(db.shards, ReadableIn(b, cutoff));
    Supervisors.SelectIsSubList(db.shards, ReadableIn(b, cutoff));
    var at := Supervisors.SubListPositions(rows, db.shards);
    forall k | 0 <= k < |db.shards|
      ensures Holds(db.shards[k], b, cutoff) <==> db.shards[k] in rows
    {
      HoldsClause(db.shards[k], b, cutoff);
    }
    SubListLists(db, rows, at, b, cutoff);
    if |rows| > 0 { assert rows[0] in rows && Holds(db.shards[at[0]], b, cutoff); }
  }

  lemma {:induction false} SubListLists(db: Db, rows: seq<Shard>, at: seq<nat>, b: string, cutoff: int)
    requires Inv(db) && |at| == |rows|
    requires forall i :: 0 <= i < |rows| ==> at[i] < |db.shards| && db.shards[at[i]] == rows[i]
    requires forall i, j :: 0 <= i < j < |rows| ==> at[i] < at[j]
    requires forall k :: 0 <= k < |db.shards| ==> (Holds(db.shards[k], b, cutoff) <==> db.shards[k] in rows)
    ensures Lists(ToReadShards(rows), db.shards, b, cutoff)
  {
    hide Holds, Inv, ToReadShards, Ascending, NamesHolder, AsRead, ToReadShard;
    var out := ToReadShards(rows);
    forall i | 0 <= i < |rows|
      ensures out[i] == AsRead(rows[i]) && NamesHolder(out[i], db.shards, b, cutoff)
    {
      HoldsClause(rows[i], b, cutoff);
      assert rows[i] in rows;
      HolderNamed(db.shards, at[i], b, cutoff);
    }
    IdsInOrder(db, rows, at, out);
    forall k | 0 <= k < |db.shards| && Holds(db.shards[k], b, cutoff)
      ensures AsRead(db.shards[k]) in out
    {
      var i :| 0 <= i < |rows| && rows[i] == db.shards[k];
      assert out[i] == AsRead(db.shards[k]);
    }
  }

  lemma HolderNamed(rows: seq<Shard>, k: nat, b: string, cutoff: int)
    requires k < |rows| && Holds(rows[k], b, cutoff)
    ensures NamesHolder(AsRead(rows[k]), rows, b, cutoff)
  {
  }

  lemma {:induction false} IdsInOrder(db: Db, rows: seq<Shard>, at: seq<nat>, out: seq<ReadShard>)
    requires Inv(db) && |at| == |rows| == |out|
    requires forall i :: 0 <= i < |rows| ==> at[i] < |db.shards| && db.shards[at[i]] == rows[i]
    requires forall i :: 0 <= i < |rows| ==> out[i] == AsRead(rows[i])
    requires forall i, j :: 0 <= i < j < |rows| ==> at[i] < at[j]
    ensures Ascending(out)
  {
    hide Inv, Address;
    forall i, j | 0 <= i < j < |out|
      ensures out[i].shardId < out[j].shardId
    {
      IdsAscend(db, at[i], at[j]);
    }
  }

  lemma IdsAscend(db: Db, i: nat, j: nat)
    requires Inv(db) && i < j < |db.shards|
    ensures db.shards[i].id < db.shards[j].id
  {
    assert RowsApart(db.shards[i], db.shards[j]);
  }

  /** A read of an evicted key answers with no shard at all; one of another error route, with the error shard. */
  lemma ReadOfErrorRoute(db: Db, lib: Lib, key: Key, wall: int, cutoff: int, now: int, reason: RouteReason)
    requires Inv(db) && db.config.Some?
    requires Classify(lib, db.config.value.config, wall, key) == Some(WriteRoute(RouteError, "__error__", reason))
    ensures var r := ResolveRead(db, lib, key, wall, cutoff, now);
            && r.db == db
            && if reason == BucketEvicted then r.answer == Ok(ReadResult(RouteError, "", BucketEvicted, []))
               else if SomeError(db.shards)
               then exists k :: 0 <= k < |db.shards| && db.shards[k].role == Error
                                && r.answer == Ok(ReadResult(RouteError, "__error__", reason, [AsRead(db.shards[k])]))
               else r.answer == Err(NotFound)
  {
    hide Classify, EnsureActive, Inv;
    ErrorClause(db.shards);
    var k := First(db.shards, ErrorRole);
    if k.Some? {
      HoldsClause(db.shards[k.value], "", 0);
      assert db.shards[k.value].role == Error;
    }
    hide First, Select;
  }

  /** A read of a bucket lists what holds its data; only if nothing does, a shard is made ready as for a write. */
  lemma ReadOfBucket(db: Db, lib: Lib, key: Key, wall: int, cutoff: int, now: int, b: string)
    requires Inv(db) && OneWriterPerBucket(db.shards) && cutoff <= now && db.config.Some?
    requires Classify(lib, db.config.value.config, wall, key) == Some(WriteRoute(RouteBucket, b, NoReason))
    ensures var r := ResolveRead(db, lib, key, wall, cutoff, now);
            if SomeHolds(db.shards, b, cutoff) then
              && r.db == db && r.answer.Ok? && Lists(r.answer.value.shards, db.shards, b, cutoff)
              && r.answer.value == ReadResult(RouteBucket, b, NoReason, r.answer.value.shards)
            else
              && r.db == EnsureActive(db, b, cutoff, now).db
              && if !SomeDraining(db.shards, b) && Effects.SomeStandby(db.shards)
                 then exists k :: 0 <= k < |r.db.shards| && Live(r.db.shards[k], b, cutoff)
                                  && r.answer == Ok(ReadResult(RouteBucket, b, NoReason, [AsRead(r.db.shards[k])]))
                 else r.answer == Err(NotFound)
  {
    hide Classify, EnsureActive, Inv, OneWriterPerBucket, Live, SomeDraining, Effects.SomeStandby, Lists, Select;
    SelectionLists(db, b, cutoff);
    if !SomeHolds(db.shards, b, cutoff) {
      NothingLive(db.shards, b, cutoff);
      ActiveAnswer(db, b, cutoff, now);
      var e := EnsureActive(db, b, cutoff, now);
      if e.answer.Ok? {
        var k :| 0 <= k < |e.db.shards| && e.db.shards[k] == e.answer.value;
        HoldsClause(e.db.shards[k], b, cutoff);
      }
    }
    hide SomeHolds;
  }

  lemma NothingLive(rows: seq<Shard>, b: string, cutoff: int)
    requires !SomeHolds(rows, b, cutoff)
    ensures !SomeLive(rows, b, cutoff)
  {
    assert forall k :: 0 <= k < |rows| && Live(rows[k], b, cutoff) ==> Holds(rows[k], b, cutoff);
  }

  lemma ReadRefused(db: Db, lib: Lib, key: Key, wall: int, cutoff: int, now: int)
    requires Inv(db)
    ensures db.config.None? ==> ResolveRead(db, lib, key, wall, cutoff, now) == Resolved(db, Err(NotBootstrapped))
    ensures db.config.Some? && Classify(lib, db.config.value.config, wall, key).None? ==>
              ResolveRead(db, lib, key, wall, cutoff, now) == Resolved(db, Err(InvalidArgument))
  {
    hide Classify, EnsureActive;
  }

  // ---- when the client needs no server ------------------------------------------------------------------------------

  /** A write is resolved locally exactly if the key has a route and the cached list holds a shard for it. */
  lemma LocalWriteHits(db: Db, lib: Lib, key: Key, wall: int)
    requires Inv(db)
    ensures LocalWrite(TopologyOf(db), lib, key, wall).Some?
            <==> && db.config.Some? && Classify(lib, db.config.value.config, wall, key).Some?
                 && var route := Classify(lib, db.config.value.config, wall, key).value;
                    if route.kind == RouteError then SomeError(db.shards)
                    else Effects.SomeActive(db.shards, route.bucketId)
  {
    hide Classify, ToProtos;
    if db.config.Some? && Classify(lib, db.config.value.config, wall, key).Some? {
      var route := Classify(lib, db.config.value.config, wall, key).value;
      if route.kind == RouteBucket {
        RoutedBucketNotEmpty(lib, db.config.value.config, wall, key);
      }
      HitsAreRows(db.shards, route.bucketId);
    }
    hide FindFirst, Inv;
  }

  lemma HitsAreRows(rows: seq<Shard>, b: string)
    ensures FindFirst(ToProtos(rows), ErrorShard).Some? <==> SomeError(rows)
    ensures b != "" ==> (FindFirst(ToProtos(rows), ActiveOf(b)).Some? <==> Effects.SomeActive(rows, b))
    ensures b != "" ==> (|FindAll(ToProtos(rows), ReadableOf(b))| > 0 <==> SomeReadable(rows, b))
  {
    hide Hit, ToProto, FindFirst, Effects.ActiveFor, Effects.SealedFor;
    var ps := ToProtos(rows);
    forall k | 0 <= k < |rows| {
      HitColumns(rows[k], b);
    }
    SomeHit(ps, ReadableOf(b));
  }

  lemma HitColumns(r: Shard, b: string)
    ensures Hit(ErrorShard, ToProto(r)) <==> r.role == Error
    ensures b != "" ==> (Hit(ActiveOf(b), ToProto(r)) <==> Effects.ActiveFor(r, b))
    ensures b != "" ==> (Hit(ReadableOf(b), ToProto(r)) <==> Effects.ActiveFor(r, b) || Effects.SealedFor(r, b))
  {
  }

  predicate SomeReadable(rows: seq<Shard>, b: string) {
    exists k :: 0 <= k < |rows| && (Effects.ActiveFor(rows[k], b) || Effects.SealedFor(rows[k], b))
  }

  lemma {:induction false} SomeHit(ps: seq<ProtoShard>, s: Search)
    ensures |FindAll(ps, s)| > 0 <==> exists k :: 0 <= k < |ps| && Hit(s, ps[k])
  {
    if |ps| > 0 {
      var n := |ps| - 1;
      SomeHit(ps[..n], s);
      if |FindAll(ps[..n], s)| > 0 {
        var k :| 0 <= k < n && Hit(s, ps[..n][k]);
        assert Hit(s, ps[k]);
      }
      assert forall k :: 0 <= k < n ==> ps[..n][k] == ps[k];
    }
  }

  /** A read is resolved locally exactly if it is evicted, or the cached list holds a shard for its route. */
  lemma LocalReadHits(db: Db, lib: Lib, key: Key, wall: int)
    requires Inv(db)
    ensures LocalRead(TopologyOf(db), lib, key, wall).Some?
            <==> && db.config.Some? && Classify(lib, db.config.value.config, wall, key).Some?
                 && var route := Classify(lib, db.config.value.config, wall, key).value;
                    if route.kind == RouteError then route.reason == BucketEvicted || SomeError(db.shards)
                    else SomeReadable(db.shards, route.bucketId)
  {
    hide Classify, ToProtos;
    if db.config.Some? && Classify(lib, db.config.value.config, wall, key).Some? {
      var route := Classify(lib, db.config.value.config, wall, key).value;
      if route.kind == RouteBucket {
        RoutedBucketNotEmpty(lib, db.config.value.config, wall, key);
      }
      HitsAreRows(db.shards, route.bucketId);
    }
    hide FindFirst, FindAll, Inv;
  }
}

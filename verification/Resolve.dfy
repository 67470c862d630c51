/** internal/resolve/resolve.go: routing a key to shards, promoting or failing over on the way. */
module Resolve {
  import opened Common
  import opened Fsm
  import opened Bucket
  import opened Routing
  import opened Table
  import opened Transactions
  import opened Lifecycle
  import opened OneWriter

  datatype WriteResult = WriteResult(
    routing: RouteKind, bucketId: string, reason: RouteReason,
    shardId: int, uuid: string, endpoint: string, state: State)

  datatype ReadShard = ReadShard(shardId: int, uuid: string, endpoint: string, state: State)

  datatype ReadResult = ReadResult(routing: RouteKind, bucketId: string, reason: RouteReason, shards: seq<ReadShard>)

  /** A value or the error of the source. */
  datatype Answer<T> = Ok(value: T) | Err(error: Outcome)

  /** The tables after a resolver call, and its answer. */
  datatype Resolved<T> = Resolved(db: Db, answer: Answer<T>)

  function Endpoint(r: Shard): string {
    if r.advertiseUrl.Some? && r.advertiseUrl.value != "" then r.advertiseUrl.value else r.dsn
  }

  function ToReadShard(r: Shard): ReadShard {
    ReadShard(r.id, r.uuid, Endpoint(r), r.state)
  }

  function ToReadShards(rows: seq<Shard>): (out: seq<ReadShard>)
    ensures |out| == |rows|
    ensures forall i :: 0 <= i < |rows| ==> out[i] == ToReadShard(rows[i])
  {
    if |rows| == 0 then [] else ToReadShards(rows[..|rows| - 1]) + [ToReadShard(rows[|rows| - 1])]
  }

  function ToWriteResult(route: WriteRoute, r: Shard): WriteResult {
    WriteResult(route.kind, route.bucketId, route.reason, r.id, r.uuid, Endpoint(r), r.state)
  }

  // ---- finding or making an active shard ------------------------------------------------------

  function RowAt(rows: seq<Shard>, k: Option<nat>): Answer<Shard>
    requires k.Some? ==> k.value < |rows|
  {
    if k.Some? then Ok(rows[k.value]) else Err(NotFound)
  }

  /** Seals a stale active of `b` and promotes in its place; losing the race is not an error. */
  function FailoverStaleActive(db: Db, b: string, cutoff: int, now: int): Step {
    if !Any(db.shards, StaleActiveIn(b, cutoff)) then Step(db, Done, None)
    else
      var s := SealRotate(db, b, now);
      if s.outcome == NotFound || s.outcome == Conflict then Step(s.db, Done, None) else s
  }

  function EnsureActive(db: Db, b: string, cutoff: int, now: int): Resolved<Shard> {
    var found := First(db.shards, FreshActiveIn(b, cutoff));
    if found.Some? then Resolved(db, Ok(db.shards[found.value]))
    else
      var f := FailoverStaleActive(db, b, cutoff, now);
      if f.outcome != Done then Resolved(f.db, Err(f.outcome))
      else
        var again := First(f.db.shards, FreshActiveIn(b, cutoff));
        if again.Some? then Resolved(f.db, Ok(f.db.shards[again.value]))
        else
          var p := AutoPromote(f.db, b, cutoff, now);
          if p.outcome != Done then Resolved(p.db, Err(p.outcome))
          else if p.promoted.Some? then Resolved(p.db, Ok(p.db.shards[p.promoted.value]))
          else Resolved(p.db, RowAt(p.db.shards, First(p.db.shards, FreshActiveIn(b, cutoff))))
  }

  // ---- resolving --------------------------------------------------------------------------------

  function OrZero(n: Option<int>): int {
    if n.Some? then n.value else 0
  }

  function Classify(lib: Lib, config: ClusterConfig, wall: int, key: Key): Option<WriteRoute>
    requires ValidSpec(config.spec)
  {
    ClassifyWrite(lib, config.spec, wall, key, OrZero(config.retentionDepth), OrZero(config.maxFuture))
  }

  /** `wall` is the server's clock, `now` the database's, `cutoff` the oldest heartbeat still fresh. */
  function ResolveWrite(db: Db, lib: Lib, key: Key, wall: int, cutoff: int, now: int): Resolved<WriteResult>
    requires Inv(db)
  {
    if db.config.None? then Resolved(db, Err(NotBootstrapped))
    else
      match Classify(lib, db.config.value.config, wall, key)
      case None => Resolved(db, Err(InvalidArgument))
      case Some(route) =>
        if route.kind == RouteError then
          match RowAt(db.shards, First(db.shards, ErrorRole))
          case Err(e) => Resolved(db, Err(e))
          case Ok(r) => Resolved(db, Ok(ToWriteResult(route, r)))
        else
          var e := EnsureActive(db, route.bucketId, cutoff, now);
          match e.answer
          case Err(err) => Resolved(e.db, Err(err))
          case Ok(r) => Resolved(e.db, Ok(ToWriteResult(route, r)))
  }

  function ResolveRead(db: Db, lib: Lib, key: Key, wall: int, cutoff: int, now: int): Resolved<ReadResult>
    requires Inv(db)
  {
    if db.config.None? then Resolved(db, Err(NotBootstrapped))
    else
      match Classify(lib, db.config.value.config, wall, key)
      case None => Resolved(db, Err(InvalidArgument))
      case Some(route) =>
        if route.kind == RouteError && route.reason == BucketEvicted then
          Resolved(db, Ok(ReadResult(RouteError, "", BucketEvicted, [])))
        else if route.kind == RouteError then
          match RowAt(db.shards, First(db.shards, ErrorRole))
          case Err(e) => Resolved(db, Err(e))
          case Ok(r) => Resolved(db, Ok(ReadResult(RouteError, ERROR_BUCKET_ID, route.reason, [ToReadShard(r)])))
        else
          var rows := Select(db.shards, ReadableIn(route.bucketId, cutoff));
          if |rows| > 0 then
            Resolved(db, Ok(ReadResult(RouteBucket, route.bucketId, NoReason, ToReadShards(rows))))
          else
            var e := EnsureActive(db, route.bucketId, cutoff, now);
            match e.answer
            case Err(err) => Resolved(e.db, Err(err))
            case Ok(r) => Resolved(e.db, Ok(ReadResult(RouteBucket, route.bucketId, NoReason, [ToReadShard(r)])))
  }

  // ---- when a write succeeds --------------------------------------------------------------------

  lemma ActiveCases(rows: seq<Shard>, b: string, cutoff: int)
    ensures Any(rows, ActiveIn(b)) <==> Any(rows, FreshActiveIn(b, cutoff)) || Any(rows, StaleActiveIn(b, cutoff))
  {
    var a, f, s := First(rows, ActiveIn(b)), First(rows, FreshActiveIn(b, cutoff)),
        First(rows, StaleActiveIn(b, cutoff));
    if a.Some? {
      assert Matches(FreshActiveIn(b, cutoff), rows[a.value]) || Matches(StaleActiveIn(b, cutoff), rows[a.value]);
    }
    if f.Some? { assert Matches(ActiveIn(b), rows[f.value]); }
    if s.Some? { assert Matches(ActiveIn(b), rows[s.value]); }
  }

  /** The unique index makes "the active shard of a bucket" well defined, whatever order rows are scanned in. */
  lemma ActiveIsUnique(db: Db, b: string, i: nat, j: nat)
    requires Inv(db) && i < |db.shards| && j < |db.shards|
    requires Matches(ActiveIn(b), db.shards[i]) && Matches(ActiveIn(b), db.shards[j])
    ensures i == j
  {
    if i < j {
      assert SameActiveBucket(db.shards[i], db.shards[j]);
    } else if j < i {
      assert SameActiveBucket(db.shards[j], db.shards[i]);
    }
  }

  /** Rotation leaves the bucket with a fresh active if the pool was not empty, and with no writer otherwise. */
  lemma RotationEffect(db: Db, b: string, cutoff: int, now: int)
    requires Inv(db) && OneWriterPerBucket(db.shards) && Any(db.shards, ActiveIn(b)) && cutoff <= now
    ensures Any(SealRotate(db, b, now).db.shards, FreshActiveIn(b, cutoff)) <==> Any(db.shards, StandbyPool)
    ensures !Any(db.shards, StandbyPool) ==>
              !Any(SealRotate(db, b, now).db.shards, WriterIn(b)) && !Any(SealRotate(db, b, now).db.shards, StandbyPool)
  {
    SealRotateStep(db, b, now);
    var i := First(db.shards, ActiveIn(b)).value;
    var rows := UpdateAt(db.shards, i, ToSealed);
    var next := SealRotate(db, b, now).db.shards;
    PoolSurvivesSealing(db.shards, i, ToSealed);
    forall j | 0 <= j < |rows|
      ensures !Matches(WriterIn(b), rows[j])
    {
      if j != i { assert !Rivals(db.shards[i], db.shards[j]); }
    }
    var k := First(rows, StandbyPool);
    if k.Some? {
      assert Matches(FreshActiveIn(b, cutoff), next[k.value]);
    } else {
      assert next == rows;
    }
  }

  lemma PoolSurvivesSealing(rows: seq<Shard>, i: nat, seal: Assign)
    requires i < |rows| && (seal.ToSealed? || seal.ToSealedAfterDrain?) && rows[i].state != Standby
    ensures Any(UpdateAt(rows, i, seal), StandbyPool) <==> Any(rows, StandbyPool)
  {
    var next := UpdateAt(rows, i, seal);
    var k, l := First(rows, StandbyPool), First(next, StandbyPool);
    if k.Some? { assert Matches(StandbyPool, next[k.value]); }
    if l.Some? { assert Matches(StandbyPool, rows[l.value]); }
  }

  /** Without any writer in the bucket, auto-promotion succeeds exactly when the pool is not empty. */
  lemma PromotionEffect(db: Db, b: string, cutoff: int, now: int)
    requires Inv(db) && OneWriterPerBucket(db.shards) && !Any(db.shards, WriterIn(b)) && cutoff <= now
    ensures var p := AutoPromote(db, b, cutoff, now);
            && (p.outcome == Done <==> Any(db.shards, StandbyPool))
            && (p.outcome == Done ==>
                 p.promoted.Some? && Matches(FreshActiveIn(b, cutoff), p.db.shards[p.promoted.value]))
            && (p.outcome != Done ==> p.db == db && p.outcome == NotFound)
  {
    WriterCases(db.shards, b);
    ActiveCases(db.shards, b, cutoff);
    PromoteStep(db, b, now);
  }

  /** The condition a caller can check before a write to bucket `b`. */
  predicate CanServe(db: Db, b: string, cutoff: int) {
    Any(db.shards, FreshActiveIn(b, cutoff)) || (!Any(db.shards, DrainingIn(b)) && Any(db.shards, StandbyPool))
  }

  /**
   A write to `b` gets a shard exactly when `b` has a fresh active, or nothing of `b` is draining and a standby is
   left. The shard returned is then an active, fresh shard of `b`; a failed write reports NotFound.
   */
  lemma EnsureActiveExactly(db: Db, b: string, cutoff: int, now: int)
    requires Inv(db) && OneWriterPerBucket(db.shards) && cutoff <= now
    ensures var e := EnsureActive(db, b, cutoff, now);
            && (e.answer.Ok? <==> CanServe(db, b, cutoff))
            && (e.answer.Ok? ==> e.answer.value in e.db.shards && Matches(FreshActiveIn(b, cutoff), e.answer.value))
            && (e.answer.Err? ==> e.answer.error == NotFound)
            && (Any(db.shards, FreshActiveIn(b, cutoff)) ==> e.db == db)
            && OneWriterPerBucket(e.db.shards) && Inv(e.db)
  {
    if !Any(db.shards, FreshActiveIn(b, cutoff)) {
      ActiveCases(db.shards, b, cutoff);
      WriterCases(db.shards, b);
      if Any(db.shards, StaleActiveIn(b, cutoff)) {
        EnsureAfterRotation(db, b, cutoff, now);
      } else if Any(db.shards, DrainingIn(b)) {
      } else {
        PromotionEffect(db, b, cutoff, now);
        StepRefines(db, CallAutoPromote(b, cutoff), now);
        AutoPromoteStep(db, b, cutoff, now);
      }
    }
  }

  lemma EnsureAfterRotation(db: Db, b: string, cutoff: int, now: int)
    requires Inv(db) && OneWriterPerBucket(db.shards) && cutoff <= now
    requires !Any(db.shards, FreshActiveIn(b, cutoff)) && Any(db.shards, StaleActiveIn(b, cutoff))
    ensures var e := EnsureActive(db, b, cutoff, now);
            && !Any(db.shards, DrainingIn(b))
            && (e.answer.Ok? <==> Any(db.shards, StandbyPool))
            && (e.answer.Ok? ==> e.answer.value in e.db.shards && Matches(FreshActiveIn(b, cutoff), e.answer.value))
            && (e.answer.Err? ==> e.answer.error == NotFound)
            && OneWriterPerBucket(e.db.shards) && Inv(e.db)
  {
    ActiveCases(db.shards, b, cutoff);
    if Any(db.shards, DrainingIn(b)) {
      DrainingExcludesActive(db.shards, b);
      assert false;
    }
    RotationEffect(db, b, cutoff, now);
    SealRotateStep(db, b, now);
    SealRotateRefines(db, b, now);
    var d := SealRotate(db, b, now).db;
    if !Any(d.shards, FreshActiveIn(b, cutoff)) {
      PromotionEffect(d, b, cutoff, now);
    }
    hide SealRotate, AutoPromote, OneWriterPerBucket, Inv;
  }
}

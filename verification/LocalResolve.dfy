/** pkg/client/local.go: resolving from a cached topology, and its agreement with the server. */
module LocalResolve {
  import opened Common
  import opened Fsm
  import opened Bucket
  import opened BucketNames
  import opened Routing
  import opened Table
  import opened Topology
  import opened Transactions
  import opened Lifecycle
  import opened Resolve

  // ---- searching the cached shard list -------------------------------------------------------

  datatype Search = ErrorShard | ActiveOf(b: string) | ReadableOf(b: string)

  predicate Hit(s: Search, p: ProtoShard) {
    match s
    case ErrorShard => p.role == Error
    case ActiveOf(b) => p.role == Data && p.state == Active && p.bucketId == b
    case ReadableOf(b) => p.role == Data && p.bucketId == b && (p.state == Active || p.state == Sealed)
  }

  function FindFirst(ps: seq<ProtoShard>, s: Search): (k: Option<nat>)
    ensures k.Some? ==> k.value < |ps| && Hit(s, ps[k.value])
    ensures k.Some? ==> forall i :: 0 <= i < k.value ==> !Hit(s, ps[i])
    ensures k.None? ==> forall i :: 0 <= i < |ps| ==> !Hit(s, ps[i])
  {
    if |ps| == 0 then None
    else
      var k := FindFirst(ps[..|ps| - 1], s);
      if k.Some? then k else if Hit(s, ps[|ps| - 1]) then Some(|ps| - 1) else None
  }

  function FindAll(ps: seq<ProtoShard>, s: Search): seq<ProtoShard> {
    if |ps| == 0 then []
    else
      var rest := FindAll(ps[..|ps| - 1], s);
      if Hit(s, ps[|ps| - 1]) then rest + [ps[|ps| - 1]] else rest
  }

  /** findErrorShard and findActiveForBucket: the first hit in list order. */
  method Find(ps: seq<ProtoShard>, s: Search) returns (p: Option<ProtoShard>)
    ensures p == if FindFirst(ps, s).Some? then Some(ps[FindFirst(ps, s).value]) else None
  {
    for i := 0 to |ps|
      invariant forall j :: 0 <= j < i ==> !Hit(s, ps[j])
    {
      if Hit(s, ps[i]) {
        return Some(ps[i]);
      }
    }
    p := None;
  }

  /** shardsForBucketRead: every hit, in list order. */
  method ShardsForBucketRead(ps: seq<ProtoShard>, b: string) returns (out: seq<ProtoShard>)
    ensures out == FindAll(ps, ReadableOf(b))
  {
    out := [];
    for i := 0 to |ps|
      invariant out == FindAll(ps[..i], ReadableOf(b))
    {
      assert ps[..i + 1][..i] == ps[..i];
      if ps[i].role == Data && ps[i].bucketId == b {
        if ps[i].state == Active || ps[i].state == Sealed {
          out := out + [ps[i]];
        }
      }
    }
    assert ps[..|ps|] == ps;
  }

  // ---- resolving -----------------------------------------------------------------------------------

  function ProtoEndpoint(p: ProtoShard): string {
    if p.advertiseUrl != "" then p.advertiseUrl else p.dsn
  }

  function WriteFrom(route: WriteRoute, p: ProtoShard): WriteResult {
    WriteResult(route.kind, route.bucketId, route.reason, p.id, p.uuid, ProtoEndpoint(p), p.state)
  }

  function ReadFrom(p: ProtoShard): ReadShard {
    ReadShard(p.id, p.uuid, ProtoEndpoint(p), p.state)
  }

  function ReadAllFrom(ps: seq<ProtoShard>): (out: seq<ReadShard>)
    ensures |out| == |ps|
    ensures forall i :: 0 <= i < |ps| ==> out[i] == ReadFrom(ps[i])
  {
    if |ps| == 0 then [] else ReadAllFrom(ps[..|ps| - 1]) + [ReadFrom(ps[|ps| - 1])]
  }

  /** tryResolveWriteLocal; None is a miss. */
  function LocalWrite(topo: TopologyMessage, lib: Lib, key: Key, wall: int): Option<WriteResult> {
    if topo.config.None? || !ValidSpec(topo.config.value.spec) then None
    else
      match Classify(lib, topo.config.value, wall, key)
      case None => None
      case Some(route) =>
        var k := FindFirst(topo.shards, if route.kind == RouteError then ErrorShard else ActiveOf(route.bucketId));
        if k.Some? then Some(WriteFrom(route, topo.shards[k.value])) else None
  }

  /** tryResolveReadLocal; None is a miss. */
  function LocalRead(topo: TopologyMessage, lib: Lib, key: Key, wall: int): Option<ReadResult> {
    if topo.config.None? || !ValidSpec(topo.config.value.spec) then None
    else
      match Classify(lib, topo.config.value, wall, key)
      case None => None
      case Some(route) =>
        if route.kind == RouteError && route.reason == BucketEvicted then
          Some(ReadResult(RouteError, "", BucketEvicted, []))
        else if route.kind == RouteError then
          var k := FindFirst(topo.shards, ErrorShard);
          if k.None? then None
          else Some(ReadResult(RouteError, ERROR_BUCKET_ID, route.reason, [ReadFrom(topo.shards[k.value])]))
        else
          var matches := FindAll(topo.shards, ReadableOf(route.bucketId));
          if |matches| == 0 then None else Some(ReadResult(RouteBucket, route.bucketId, NoReason, ReadAllFrom(matches)))
  }

  method TryResolveWriteLocal(topo: TopologyMessage, lib: Lib, key: Key, wall: int) returns (res: Option<WriteResult>)
    ensures res == LocalWrite(topo, lib, key, wall)
  {
    if topo.config.None? || !ValidSpec(topo.config.value.spec) {
      return None;
    }
    var route := Classify(lib, topo.config.value, wall, key);
    if route.None? {
      return None;
    }
    var p := Find(topo.shards, if route.value.kind == RouteError then ErrorShard else ActiveOf(route.value.bucketId));
    res := if p.Some? then Some(WriteFrom(route.value, p.value)) else None;
  }

  method TryResolveReadLocal(topo: TopologyMessage, lib: Lib, key: Key, wall: int) returns (res: Option<ReadResult>)
    ensures res == LocalRead(topo, lib, key, wall)
  {
    hide Classify, FindFirst, FindAll;
    if topo.config.None? || !ValidSpec(topo.config.value.spec) {
      return None;
    }
    var route := Classify(lib, topo.config.value, wall, key);
    if route.None? {
      return None;
    }
    if route.value.kind == RouteError {
      if route.value.reason == BucketEvicted {
        return Some(ReadResult(RouteError, "", BucketEvicted, []));
      }
      var p := Find(topo.shards, ErrorShard);
      return if p.None? then None
             else Some(ReadResult(RouteError, ERROR_BUCKET_ID, route.value.reason, [ReadFrom(p.value)]));
    }
    var matches := ShardsForBucketRead(topo.shards, route.value.bucketId);
    if |matches| == 0 {
      return None;
    }
    var shards: seq<ReadShard> := [];
    for i := 0 to |matches|
      invariant shards == ReadAllFrom(matches[..i])
    {
      assert matches[..i + 1][..i] == matches[..i];
      shards := shards + [ReadFrom(matches[i])];
    }
    assert matches[..|matches|] == matches;
    res := Some(ReadResult(RouteBucket, route.value.bucketId, NoReason, shards));
  }

  // ---- keys on the wire -------------------------------------------------------------------------------

  /** structpb carries every number as a float64. */
  function Wire(key: Key): Key {
    match key
    case Int64(n) => Float(n)
    case Int(n) => Float(n)
    case _ => key
  }

  /** Strings, and whole numbers a float64 holds exactly. */
  predicate SurvivesWire(key: Key) {
    match key
    case Text(_) => true
    case Float(n) => -0x20_0000_0000_0000 <= n <= 0x20_0000_0000_0000
    case Int64(n) => -0x20_0000_0000_0000 <= n <= 0x20_0000_0000_0000
    case Int(n) => -0x20_0000_0000_0000 <= n <= 0x20_0000_0000_0000
    case JsonNumber(_) => false
    case Unsupported => false
  }

  /** On the wire every number is a float64: text and whole numbers within 2^53 arrive as they were sent. */
  lemma WireCarries(n: int, s: string)
    requires -0x20_0000_0000_0000 <= n <= 0x20_0000_0000_0000
    ensures Wire(Int64(n)) == Wire(Int(n)) == Wire(Float(n)) == Float(n) && Wire(Text(s)) == Text(s)
    ensures SurvivesWire(Int64(n)) && SurvivesWire(Int(n)) && SurvivesWire(Float(n)) && SurvivesWire(Text(s))
  {
  }

  lemma WireKeepsRoute(lib: Lib, config: ClusterConfig, wall: int, key: Key)
    requires SurvivesWire(key) && ValidSpec(config.spec)
    ensures Classify(lib, config, wall, Wire(key)) == Classify(lib, config, wall, key)
  {
    hide TimeID, Index, Place;
  }

  // ---- agreement --------------------------------------------------------------------------------------

  lemma HitIsMatch(r: Shard, b: string, cutoff: int)
    requires b != ""
    ensures Hit(ErrorShard, ToProto(r)) <==> Matches(ErrorRole, r)
    ensures Hit(ActiveOf(b), ToProto(r)) <==> Matches(ActiveIn(b), r)
    ensures Hit(ReadableOf(b), ToProto(r)) <==>
            Matches(ReadableIn(b, cutoff), r) || Matches(StaleActiveIn(b, cutoff), r)
    ensures ProtoEndpoint(ToProto(r)) == Endpoint(r)
  {
  }

  lemma FirstErrorAgrees(rows: seq<Shard>)
    ensures FindFirst(ToProtos(rows), ErrorShard) == First(rows, ErrorRole)
  {
    var f, g := FindFirst(ToProtos(rows), ErrorShard), First(rows, ErrorRole);
    assert forall i :: 0 <= i < |rows| ==> (Hit(ErrorShard, ToProtos(rows)[i]) <==> Matches(ErrorRole, rows[i]));
    assert f.Some? ==> Matches(ErrorRole, rows[f.value]);
    assert g.Some? ==> Hit(ErrorShard, ToProtos(rows)[g.value]);
  }

  lemma FirstActiveAgrees(rows: seq<Shard>, b: string)
    requires b != ""
    ensures FindFirst(ToProtos(rows), ActiveOf(b)) == First(rows, ActiveIn(b))
  {
    var f, g := FindFirst(ToProtos(rows), ActiveOf(b)), First(rows, ActiveIn(b));
    forall i | 0 <= i < |rows|
      ensures Hit(ActiveOf(b), ToProtos(rows)[i]) <==> Matches(ActiveIn(b), rows[i])
    {
      HitIsMatch(rows[i], b, 0);
    }
    assert f.Some? ==> Matches(ActiveIn(b), rows[f.value]);
    assert g.Some? ==> Hit(ActiveOf(b), ToProtos(rows)[g.value]);
  }

  /** With no stale active in the bucket, the cached list and the SQL query keep the same rows in the same order. */
  lemma {:induction false} ReadListAgrees(rows: seq<Shard>, b: string, cutoff: int)
    requires b != "" && forall i :: 0 <= i < |rows| ==> !Matches(StaleActiveIn(b, cutoff), rows[i])
    ensures ReadAllFrom(FindAll(ToProtos(rows), ReadableOf(b))) == ToReadShards(Select(rows, ReadableIn(b, cutoff)))
  {
    if |rows| > 0 {
      hide FindAll, Select, ToProtos, Hit, Matches;
      var n := |rows| - 1;
      ReadListAgrees(rows[..n], b, cutoff);
      HitIsMatch(rows[n], b, cutoff);
      assert rows == rows[..n] + [rows[n]];
      SelectSnoc(rows[..n], rows[n], ReadableIn(b, cutoff));
      FindAllSnoc(rows[..n], rows[n], ReadableOf(b));
      ListsSnoc(FindAll(ToProtos(rows[..n]), ReadableOf(b)), Select(rows[..n], ReadableIn(b, cutoff)), rows[n]);
    }
  }

  lemma SelectSnoc(rows: seq<Shard>, r: Shard, w: Where)
    ensures Select(rows + [r], w) == Select(rows, w) + (if Matches(w, r) then [r] else [])
  {
    assert (rows + [r])[..|rows|] == rows;
  }

  lemma FindAllSnoc(rows: seq<Shard>, r: Shard, s: Search)
    ensures FindAll(ToProtos(rows + [r]), s)
            == FindAll(ToProtos(rows), s) + (if Hit(s, ToProto(r)) then [ToProto(r)] else [])
  {
    assert (rows + [r])[..|rows|] == rows;
    assert (ToProtos(rows) + [ToProto(r)])[..|rows|] == ToProtos(rows);
  }

  lemma ListsSnoc(ps: seq<ProtoShard>, rows: seq<Shard>, r: Shard)
    ensures ReadAllFrom(ps + [ToProto(r)]) == ReadAllFrom(ps) + [ReadFrom(ToProto(r))]
    ensures ToReadShards(rows + [r]) == ToReadShards(rows) + [ToReadShard(r)]
  {
    assert (ps + [ToProto(r)])[..|ps|] == ps;
    assert (rows + [r])[..|rows|] == rows;
  }

  /** The bucket a key is written to, if any. */
  function RoutedBucket(lib: Lib, config: ClusterConfig, wall: int, key: Key): Option<string>
    requires ValidSpec(config.spec)
  {
    var route := Classify(lib, config, wall, key);
    if route.Some? && route.value.kind == RouteBucket then Some(route.value.bucketId) else None
  }

  lemma RoutedBucketNotEmpty(lib: Lib, config: ClusterConfig, wall: int, key: Key)
    requires ValidSpec(config.spec) && RoutedBucket(lib, config, wall, key).Some?
    ensures RoutedBucket(lib, config, wall, key).value != ""
  {
    hide ID, Index, CurrentIndex;
    IdNotEmpty(lib, config.spec, key);
    var target := ID(lib, config.spec, key);
    if config.spec.TimeAxis? && target.Some? {
      PlaceKeepsTarget(target.value, Index(config.spec, target.value), CurrentIndex(config.spec, wall),
                       OrZero(config.retentionDepth), OrZero(config.maxFuture));
    }
    hide Place;
  }

  /** The active shard of the key's bucket, if there is one, still sends heartbeats. */
  predicate RouteFresh(db: Db, lib: Lib, key: Key, wall: int, cutoff: int)
    requires db.config.Some? && ValidSpec(db.config.value.config.spec)
  {
    var b := RoutedBucket(lib, db.config.value.config, wall, key);
    b.Some? ==> !Any(db.shards, StaleActiveIn(b.value, cutoff))
  }

  /** A stale active makes the server fail over, so it either errs or changes the tables. */
  lemma StaleActiveIsNotServed(db: Db, b: string, cutoff: int, now: int)
    requires Inv(db) && Any(db.shards, StaleActiveIn(b, cutoff))
    ensures EnsureActive(db, b, cutoff, now).answer.Err? || EnsureActive(db, b, cutoff, now).db != db
  {
    hide Inv, First, SealRotate, AutoPromote;
    var k := First(db.shards, StaleActiveIn(b, cutoff)).value;
    NoFreshBesideStale(db, b, cutoff, k);
    RotationTouches(db, b, cutoff, now, k);
    var s := SealRotate(db, b, now);
    if s.outcome == Done {
      SealRotateRefines(db, b, now);
      VersionsNeverDrop(s.db, CallAutoPromote(b, cutoff), now, k);
    }
  }

  /** Rotation, when it commits, changes the row that was active. */
  lemma RotationTouches(db: Db, b: string, cutoff: int, now: int, k: nat)
    requires Inv(db) && k < |db.shards| && Matches(StaleActiveIn(b, cutoff), db.shards[k])
    ensures var s := SealRotate(db, b, now);
            && (s.outcome == Done || s.outcome == UniqueViolation)
            && (s.outcome == Done ==> k < |s.db.shards| && s.db.shards[k].version > db.shards[k].version)
  {
    assert Matches(ActiveIn(b), db.shards[k]);
    ActiveIsUnique(db, b, First(db.shards, ActiveIn(b)).value, k);
    hide Inv, OneActivePerBucket;
  }

  lemma VersionsNeverDrop(db: Db, call: Call, now: int, k: nat)
    requires Inv(db) && k < |db.shards|
    ensures k < |Exec(db, call, now).db.shards| && Exec(db, call, now).db.shards[k].version >= db.shards[k].version
  {
    hide Exec;
    StepRefines(db, call, now);
    assert RowStep(db.shards[k], Exec(db, call, now).db.shards[k]);
  }

  lemma NoFreshBesideStale(db: Db, b: string, cutoff: int, k: nat)
    requires Inv(db) && k < |db.shards| && Matches(StaleActiveIn(b, cutoff), db.shards[k])
    ensures !Any(db.shards, FreshActiveIn(b, cutoff)) && Any(db.shards, ActiveIn(b))
  {
    assert Matches(ActiveIn(b), db.shards[k]);
    var f := First(db.shards, FreshActiveIn(b, cutoff));
    if f.Some? {
      ActiveIsUnique(db, b, f.value, k);
      assert false;
    }
  }

  /**
   A local write hit from an up-to-date cache is what the server would answer, with the tables left alone,
   exactly when the routed bucket's active shard is fresh. Error routes always agree.
   */
  lemma LocalWriteAgrees(db: Db, lib: Lib, key: Key, wall: int, cutoff: int, now: int)
    requires Inv(db) && SurvivesWire(key)
    requires LocalWrite(TopologyOf(db), lib, key, wall).Some?
    ensures ResolveWrite(db, lib, Wire(key), wall, cutoff, now)
            == Resolved(db, Ok(LocalWrite(TopologyOf(db), lib, key, wall).value))
            <==> RouteFresh(db, lib, key, wall, cutoff)
  {
    hide Classify, First, FindFirst, Inv, EnsureActive, ToProtos;
    var config := db.config.value.config;
    WireKeepsRoute(lib, config, wall, key);
    var route := Classify(lib, config, wall, key).value;
    if route.kind == RouteError {
      FirstErrorAgrees(db.shards);
    } else {
      RoutedBucketNotEmpty(lib, config, wall, key);
      FirstActiveAgrees(db.shards, route.bucketId);
      if Any(db.shards, StaleActiveIn(route.bucketId, cutoff)) {
        StaleActiveIsNotServed(db, route.bucketId, cutoff, now);
      } else {
        FreshActiveIsServed(db, route.bucketId, cutoff, now);
      }
    }
  }

  lemma FreshActiveIsServed(db: Db, b: string, cutoff: int, now: int)
    requires Inv(db) && Any(db.shards, ActiveIn(b)) && !Any(db.shards, StaleActiveIn(b, cutoff))
    ensures EnsureActive(db, b, cutoff, now) == Resolved(db, Ok(db.shards[First(db.shards, ActiveIn(b)).value]))
  {
    ActiveCases(db.shards, b, cutoff);
    ActiveIsUnique(db, b, First(db.shards, FreshActiveIn(b, cutoff)).value, First(db.shards, ActiveIn(b)).value);
  }

  /** The same for reads: the local list equals the server's, in id order, exactly when no active in it is stale. */
  lemma LocalReadAgrees(db: Db, lib: Lib, key: Key, wall: int, cutoff: int, now: int)
    requires Inv(db) && SurvivesWire(key)
    requires LocalRead(TopologyOf(db), lib, key, wall).Some?
    ensures ResolveRead(db, lib, Wire(key), wall, cutoff, now)
            == Resolved(db, Ok(LocalRead(TopologyOf(db), lib, key, wall).value))
            <==> RouteFresh(db, lib, key, wall, cutoff)
  {
    hide Classify, First, FindFirst, Inv, EnsureActive, ToProtos, FindAll, Select;
    var config := db.config.value.config;
    WireKeepsRoute(lib, config, wall, key);
    var route := Classify(lib, config, wall, key).value;
    if route.kind == RouteError {
      FirstErrorAgrees(db.shards);
    } else {
      var b := route.bucketId;
      RoutedBucketNotEmpty(lib, config, wall, key);
      if Any(db.shards, StaleActiveIn(b, cutoff)) {
        StaleActiveIsNotServed(db, b, cutoff, now);
        StaleActiveListed(db, b, cutoff, First(db.shards, StaleActiveIn(b, cutoff)).value);
      } else {
        ReadListAgrees(db.shards, b, cutoff);
      }
    }
  }

  lemma {:induction false} FindAllHas(ps: seq<ProtoShard>, s: Search, k: nat)
    requires k < |ps| && Hit(s, ps[k])
    ensures ps[k] in FindAll(ps, s)
  {
    if k < |ps| - 1 {
      FindAllHas(ps[..|ps| - 1], s, k);
    }
  }

  /** The cached list still shows a stale active; the server's never does. */
  lemma StaleActiveListed(db: Db, b: string, cutoff: int, k: nat)
    requires Inv(db) && b != "" && k < |db.shards| && Matches(StaleActiveIn(b, cutoff), db.shards[k])
    ensures ReadAllFrom(FindAll(ToProtos(db.shards), ReadableOf(b)))
            != ToReadShards(Select(db.shards, ReadableIn(b, cutoff)))
  {
    var ps, qs := FindAll(ToProtos(db.shards), ReadableOf(b)), Select(db.shards, ReadableIn(b, cutoff));
    HitIsMatch(db.shards[k], b, cutoff);
    FindAllHas(ToProtos(db.shards), ReadableOf(b), k);
    var i :| 0 <= i < |ps| && ps[i] == ToProto(db.shards[k]);
    assert ReadAllFrom(ps)[i].shardId == db.shards[k].id;
    forall j | 0 <= j < |qs|
      ensures ToReadShards(qs)[j].shardId != db.shards[k].id
    {
      assert qs[j] in qs;
      ServedIsNotStale(db, b, cutoff, k, qs[j]);
    }
  }

  lemma ServedIsNotStale(db: Db, b: string, cutoff: int, k: nat, r: Shard)
    requires Inv(db) && k < |db.shards| && Matches(StaleActiveIn(b, cutoff), db.shards[k])
    requires r in db.shards && Matches(ReadableIn(b, cutoff), r)
    ensures r.id != db.shards[k].id
  {
    var j :| 0 <= j < |db.shards| && db.shards[j] == r;
    assert j != k;
    assert if j < k then RowsApart(db.shards[j], db.shards[k]) else RowsApart(db.shards[k], db.shards[j]);
  }
}

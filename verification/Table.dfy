/**
 The metadata tables of internal/store. A `shards` table is a sequence of rows in id order (rows are
 never deleted, so a row keeps its position); WHERE clauses and SET lists are values.
 */
module Table {
  import opened Common
  import opened Fsm
  import opened Bucket

  datatype Shard = Shard(
    id: int, uuid: string, role: Role, bucket: Option<string>, state: State,
    dsn: string, advertiseUrl: Option<string>,
    reportedBytes: int, maxBytes: Option<int>, lastSeen: Option<int>,
    drainStarted: Option<int>, drainReady: bool, version: int)

  datatype ClusterConfig = ClusterConfig(
    spec: Spec, shardMaxBytes: int, retentionDepth: Option<int>, maxFuture: Option<int>)

  /** The single cluster_config row. */
  datatype ConfigRow = ConfigRow(config: ClusterConfig, topologyVersion: int)

  /** `nextId` is the next value of the id sequence. */
  datatype Db = Db(shards: seq<Shard>, config: Option<ConfigRow>, nextId: int)

  const EMPTY := Db([], None, 1)

  // ---- WHERE ------------------------------------------------------------------------

  datatype Where =
    | ActiveIn(b: string)
    | FreshActiveIn(b: string, cutoff: int)
    | StaleActiveIn(b: string, cutoff: int)
    | StaleActiveAnywhere(cutoff: int)
    | ReadableIn(b: string, cutoff: int)
    | DrainingIn(b: string)
    | SealedIn(b: string)
    | WriterIn(b: string)
    | StandbyPool
    | ActiveAnywhere
    | DrainingAnywhere
    | AssignedAnywhere
    | ErrorRole
    | WithId(id: int)
    | WithUuid(uuid: string)
    | WithUuidAndState(uuid: string, state: State)

  predicate Fresh(r: Shard, cutoff: int) {
    r.lastSeen.Some? && r.lastSeen.value >= cutoff
  }

  predicate InBucket(r: Shard, b: string) {
    r.role == Data && r.bucket == Some(b)
  }

  predicate Matches(w: Where, r: Shard) {
    match w
    case ActiveIn(b) => InBucket(r, b) && r.state == Active
    case FreshActiveIn(b, cutoff) => InBucket(r, b) && r.state == Active && Fresh(r, cutoff)
    case StaleActiveIn(b, cutoff) => InBucket(r, b) && r.state == Active && !Fresh(r, cutoff)
    case StaleActiveAnywhere(cutoff) => r.role == Data && r.state == Active && r.bucket.Some? && !Fresh(r, cutoff)
    case ReadableIn(b, cutoff) => InBucket(r, b) && (r.state == Sealed || (r.state == Active && Fresh(r, cutoff)))
    case DrainingIn(b) => InBucket(r, b) && r.state == Draining
    case SealedIn(b) => InBucket(r, b) && r.state == Sealed
    case WriterIn(b) => InBucket(r, b) && (r.state == Active || r.state == Draining)
    case StandbyPool => r.role == Data && r.state == Standby && r.bucket.None?
    case ActiveAnywhere => r.role == Data && r.state == Active
    case DrainingAnywhere => r.role == Data && r.state == Draining
    case AssignedAnywhere => r.role == Data && r.bucket.Some?
    case ErrorRole => r.role == Error
    case WithId(id) => r.id == id
    case WithUuid(u) => r.uuid == u
    case WithUuidAndState(u, s) => r.uuid == u && r.state == s
  }

  /** Position of the first row, in id order, that satisfies the clause. */
  function First(rows: seq<Shard>, w: Where): (k: Option<nat>)
    ensures k.Some? ==> k.value < |rows| && Matches(w, rows[k.value])
    ensures k.Some? ==> forall i :: 0 <= i < k.value ==> !Matches(w, rows[i])
    ensures k.None? ==> forall i :: 0 <= i < |rows| ==> !Matches(w, rows[i])
  {
    if |rows| == 0 then None
    else
      var k := First(rows[..|rows| - 1], w);
      if k.Some? then k
      else if Matches(w, rows[|rows| - 1]) then Some(|rows| - 1)
      else None
  }

  predicate Any(rows: seq<Shard>, w: Where) {
    First(rows, w).Some?
  }

  /** The rows that satisfy the clause, in id order. */
  function Select(rows: seq<Shard>, w: Where): (out: seq<Shard>)
    ensures forall r :: r in out <==> r in rows && Matches(w, r)
  {
    if |rows| == 0 then []
    else
      var last := rows[|rows| - 1];
      var rest := Select(rows[..|rows| - 1], w);
      assert rows == rows[..|rows| - 1] + [last];
      if Matches(w, last) then rest + [last] else rest
  }

  /** The number of rows that satisfy the clause. */
  function Count(rows: seq<Shard>, w: Where): nat {
    |Select(rows, w)|
  }

  // ---- SET --------------------------------------------------------------------------

  datatype Assign =
    | ToActive(b: string, now: int)
    | ToSealed
    | ToSealedAfterDrain
    | ToDraining(now: int)
    | ToCleaning
    | Recycle
    | SetDrainReady
    | SetStats(bytes: int, now: int)
    | SetState(state: State)
    | SetEndpoint(dsn: string, advertiseUrl: Option<string>, now: int)

  function Assigned(a: Assign, r: Shard): Shard {
    match a
    case ToActive(b, now) => r.(bucket := Some(b), state := Active, lastSeen := Some(now), version := r.version + 1)
    case ToSealed => r.(state := Sealed, version := r.version + 1)
    case ToSealedAfterDrain => r.(state := Sealed, drainReady := false, version := r.version + 1)
    case ToDraining(now) =>
      r.(state := Draining, drainStarted := Some(now), drainReady := false, version := r.version + 1)
    case ToCleaning => r.(state := Cleaning, version := r.version + 1)
    case Recycle =>
      r.(state := Standby, bucket := None, reportedBytes := 0,
         drainStarted := None, drainReady := false, version := r.version + 1)
    case SetDrainReady => r.(drainReady := true, version := r.version + 1)
    case SetStats(bytes, now) => r.(reportedBytes := bytes, lastSeen := Some(now))
    case SetState(s) => r.(state := s, version := r.version + 1)
    case SetEndpoint(dsn, url, now) => r.(dsn := dsn, advertiseUrl := url, lastSeen := Some(now))
  }

  /** UPDATE shards SET a WHERE w. */
  function Update(rows: seq<Shard>, w: Where, a: Assign): (out: seq<Shard>)
    ensures |out| == |rows|
  {
    seq(|rows|, i requires 0 <= i < |rows| => if Matches(w, rows[i]) then Assigned(a, rows[i]) else rows[i])
  }

  /** UPDATE shards SET a WHERE id = the id of row k. */
  function UpdateAt(rows: seq<Shard>, k: nat, a: Assign): (out: seq<Shard>)
    requires k < |rows|
    ensures |out| == |rows|
  {
    rows[k := Assigned(a, rows[k])]
  }

  function Bump(config: Option<ConfigRow>): Option<ConfigRow> {
    match config
    case None => None
    case Some(row) => Some(row.(topologyVersion := row.topologyVersion + 1))
  }

  // ---- constraints --------------------------------------------------------------------

  predicate SameActiveBucket(r: Shard, s: Shard) {
    r.role == Data && s.role == Data && r.state == Active && s.state == Active && r.bucket.Some? && r.bucket == s.bucket
  }

  /** The partial unique index shards_one_active_per_bucket. */
  predicate OneActivePerBucket(rows: seq<Shard>) {
    forall i, j :: 0 <= i < j < |rows| ==> !SameActiveBucket(rows[i], rows[j])
  }

  /** What Topology.Get and the client's routes depend on. */
  datatype RouteInfo = RouteInfo(
    id: int, uuid: string, role: Role, state: State, bucket: Option<string>, dsn: string, advertiseUrl: Option<string>)

  function RouteOf(r: Shard): RouteInfo {
    RouteInfo(r.id, r.uuid, r.role, r.state, r.bucket, r.dsn, r.advertiseUrl)
  }

  function Routes(db: Db): (out: seq<RouteInfo>)
    ensures |out| == |db.shards|
  {
    seq(|db.shards|, i requires 0 <= i < |db.shards| => RouteOf(db.shards[i]))
  }

  /** topology_version, 0 before bootstrap. */
  function Version(db: Db): int {
    if db.config.Some? then db.config.value.topologyVersion else 0
  }
}

/** The transactions of internal/store/store.go as functions on the tables, one atomic step each. */
module Transactions {
  import opened Common
  import opened Fsm
  import opened Bucket
  import opened Table

  datatype Outcome =
    | Done | AlreadyBootstrapped | NotBootstrapped | NotFound | Conflict | InvalidArgument | UniqueViolation

  /** The tables after a transaction, its error, and the position of the row it promoted, if any. */
  datatype Step = Step(db: Db, outcome: Outcome, promoted: Option<nat>)

  function Fail(db: Db, outcome: Outcome): Step {
    Step(db, outcome, None)
  }

  /**
   Commit of new rows with a version bump; with the unique index in place, violating it rolls the transaction back.
   */
  function Commit(db: Db, rows: seq<Shard>, promoted: Option<nat>, index: bool := true): Step {
    if !index || OneActivePerBucket(rows) then Step(db.(shards := rows, config := Bump(db.config)), Done, promoted)
    else Fail(db, UniqueViolation)
  }

  function Bootstrap(db: Db, config: ClusterConfig): Step {
    if db.config.Some? then Fail(db, AlreadyBootstrapped)
    else if !ValidSpec(config.spec) then Fail(db, InvalidArgument)
    else Step(db.(config := Some(ConfigRow(config, 1))), Done, None)
  }

  function NullStr(s: string): Option<string> {
    if s == "" then None else Some(s)
  }

  function StartupState(role: Role, startup: State): State {
    if role == Error then Active else if startup == Other("") then Standby else startup
  }

  function NewShard(id: int, uuid: string, role: Role, dsn: string, url: string, state: State, now: int): Shard {
    Shard(id, uuid, role, None, state, dsn, NullStr(url), 0, None, Some(now), None, false, 1)
  }

  /** Inserts a shard, or refreshes the endpoint of a known uuid; either way one id is drawn. */
  function RegisterShard(db: Db, uuid: string, role: Role, dsn: string, url: string, startup: State, now: int): Step {
    var state := StartupState(role, startup);
    if role == Data && !StartupStateAllowed(state) then Fail(db, InvalidArgument)
    else if role == Error && Any(db.shards, ErrorRole) then Fail(db, Conflict)
    else
      var known := First(db.shards, WithUuid(uuid));
      var rows :=
        if known.Some? then UpdateAt(db.shards, known.value, SetEndpoint(dsn, NullStr(url), now))
        else db.shards + [NewShard(db.nextId, uuid, role, dsn, url, state, now)];
      Step(Db(rows, Bump(db.config), db.nextId + 1), Done, None)
  }

  /** The promoted row is an active data shard of `b`, seen at `now`. */
  predicate PromotedTo(s: Step, b: string, now: int) {
    && s.outcome == Done && s.promoted.Some? && s.promoted.value < |s.db.shards|
    && Matches(FreshActiveIn(b, now), s.db.shards[s.promoted.value])
  }

  /** Lowest-id standby into bucket `b`. */
  function PromoteStandby(db: Db, b: string, now: int, index: bool := true): (s: Step)
    ensures s.promoted.Some? ==> PromotedTo(s, b, now)
    ensures s.outcome == Done ==> s.promoted.Some?
  {
    match First(db.shards, StandbyPool)
    case None => Fail(db, NotFound)
    case Some(k) => Commit(db, UpdateAt(db.shards, k, ToActive(b, now)), Some(k), index)
  }

  /** Seals row `i` and, in the same transaction, promotes a standby into its bucket if there is one. */
  function SealAndPromote(db: Db, i: nat, seal: Assign, b: string, now: int, index: bool := true): Step
    requires i < |db.shards|
  {
    var rows := UpdateAt(db.shards, i, seal);
    match First(rows, StandbyPool)
    case None => Commit(db, rows, None, index)
    case Some(k) => Commit(db, UpdateAt(rows, k, ToActive(b, now)), Some(k), index)
  }

  function SealRotate(db: Db, b: string, now: int, index: bool := true): Step {
    match First(db.shards, ActiveIn(b))
    case None => Fail(db, NotFound)
    case Some(i) => SealAndPromote(db, i, ToSealed, b, now, index)
  }

  function CompleteDrainSeal(db: Db, b: string, now: int, index: bool := true): Step {
    match First(db.shards, DrainingIn(b))
    case None => Fail(db, NotFound)
    case Some(i) => SealAndPromote(db, i, ToSealedAfterDrain, b, now, index)
  }

  /** UPDATE .. WHERE with a version bump if a row matched, else `missing`. */
  function BulkUpdate(db: Db, w: Where, a: Assign, missing: Outcome): Step {
    if Any(db.shards, w) then Step(db.(shards := Update(db.shards, w, a), config := Bump(db.config)), Done, None)
    else Fail(db, missing)
  }

  /** UPDATE .. WHERE on columns outside the topology: no version bump. */
  function QuietUpdate(db: Db, w: Where, a: Assign): Step {
    if Any(db.shards, w) then Step(db.(shards := Update(db.shards, w, a)), Done, None)
    else Fail(db, NotFound)
  }

  function BeginDrain(db: Db, b: string, now: int): Step {
    BulkUpdate(db, ActiveIn(b), ToDraining(now), NotFound)
  }

  function MarkBucketCleaning(db: Db, b: string): Step {
    BulkUpdate(db, SealedIn(b), ToCleaning, Done)
  }

  function FinishCleaning(db: Db, uuid: string): Step {
    BulkUpdate(db, WithUuidAndState(uuid, Cleaning), Recycle, Done)
  }

  function MarkDrainReady(db: Db, uuid: string): Step {
    QuietUpdate(db, WithUuidAndState(uuid, Draining), SetDrainReady)
  }

  function UpdateStats(db: Db, uuid: string, bytes: int, now: int): Step {
    QuietUpdate(db, WithUuid(uuid), SetStats(bytes, now))
  }

  /** Manual transition: checks the lifecycle table, leaves bucket and drain columns alone. */
  function PatchState(db: Db, id: int, state: State, index: bool := true): Step {
    match First(db.shards, WithId(id))
    case None => Fail(db, NotFound)
    case Some(k) =>
      if !CanTransition(db.shards[k].role, db.shards[k].state, state) then Fail(db, InvalidArgument)
      else Commit(db, UpdateAt(db.shards, k, SetState(state)), None, index)
  }

  /** Auto-promotion as one step: done with nothing promoted if a fresh active exists. */
  function AutoPromote(db: Db, b: string, cutoff: int, now: int, index: bool := true): (s: Step)
    ensures s.promoted.Some? ==> PromotedTo(s, b, now)
  {
    if Any(db.shards, FreshActiveIn(b, cutoff)) then Step(db, Done, None)
    else if Any(db.shards, WriterIn(b)) then Fail(db, NotFound)
    else PromoteStandby(db, b, now, index)
  }

  // ---- calls and runs -----------------------------------------------------------------

  datatype Call =
    | CallBootstrap(config: ClusterConfig)
    | CallRegister(uuid: string, role: Role, dsn: string, url: string, startup: State)
    | CallPromote(b: string)
    | CallAutoPromote(b: string, cutoff: int)
    | CallSealRotate(b: string)
    | CallBeginDrain(b: string)
    | CallMarkDrainReady(uuid: string)
    | CallCompleteDrainSeal(b: string)
    | CallPatchState(id: int, state: State)
    | CallMarkCleaning(b: string)
    | CallFinishCleaning(uuid: string)
    | CallUpdateStats(uuid: string, bytes: int)

  /** The step a call makes when the database clock reads `now`; `index` says whether the unique index is enforced. */
  function Exec(db: Db, call: Call, now: int, index: bool := true): Step {
    match call
    case CallBootstrap(config) => Bootstrap(db, config)
    case CallRegister(uuid, role, dsn, url, startup) => RegisterShard(db, uuid, role, dsn, url, startup, now)
    case CallPromote(b) => PromoteStandby(db, b, now, index)
    case CallAutoPromote(b, cutoff) => AutoPromote(db, b, cutoff, now, index)
    case CallSealRotate(b) => SealRotate(db, b, now, index)
    case CallBeginDrain(b) => BeginDrain(db, b, now)
    case CallMarkDrainReady(uuid) => MarkDrainReady(db, uuid)
    case CallCompleteDrainSeal(b) => CompleteDrainSeal(db, b, now, index)
    case CallPatchState(id, state) => PatchState(db, id, state, index)
    case CallMarkCleaning(b) => MarkBucketCleaning(db, b)
    case CallFinishCleaning(uuid) => FinishCleaning(db, uuid)
    case CallUpdateStats(uuid, bytes) => UpdateStats(db, uuid, bytes, now)
  }

  /** A call with the database time it ran at. */
  datatype Event = Event(call: Call, now: int)

  /** states[0], events[0], states[1], ... */
  datatype Run = Run(states: seq<Db>, events: seq<Event>) {
    ghost predicate Valid() {
      && |states| == |events| + 1
      && forall i :: 0 <= i < |events| ==> states[i + 1] == Exec(states[i], events[i].call, events[i].now).db
    }

    ghost predicate FromEmpty() {
      Valid() && states[0] == EMPTY
    }
  }
}

/**
 internal/store/store.go as an object: the metadata tables, the in-memory config cache and the heartbeat
 timeout. Each method is one transaction; `now` is the database clock during it.
 */
module MetadataStore {
  import opened Common
  import opened Fsm
  import opened Bucket
  import opened Table
  import opened Transactions
  import opened Lifecycle
  import opened Runs
  import opened Supervisors

  /** What a step owes the object: well-formed tables, and a config that stays. */
  ghost predicate Kept(db: Db, next: Db) {
    Inv(next) && (db.config.Some? ==> next.config.Some? && next.config.value.config == db.config.value.config)
  }

  lemma StepKept(db: Db, call: Call, now: int)
    requires Inv(db)
    ensures Kept(db, Exec(db, call, now).db)
  {
    hide Exec, Inv;
    StepRefines(db, call, now);
    VersionStep(db, call, now);
  }

  lemma MarkCleaningStep(db: Db, b: string, now: int)
    ensures Exec(db, CallMarkCleaning(b), now).db
            == if Any(db.shards, SealedIn(b))
               then Db(Update(db.shards, SealedIn(b), ToCleaning), Bump(db.config), db.nextId) else db
  {
    hide Any, Update;
  }

  class Store {
    var shards: seq<Shard>
    var config: Option<ConfigRow>
    var nextId: int
    var configCache: Option<ClusterConfig>
    const heartbeatTimeout: int

    ghost function Tables(): Db
      reads this
    {
      Db(shards, config, nextId)
    }

    /** The tables are well formed, and a cached config is the stored one. */
    ghost predicate Valid()
      reads this
    {
      && Inv(Tables())
      && heartbeatTimeout > 0
      && (configCache.Some? ==> config.Some? && configCache.value == config.value.config)
    }

    function Cutoff(now: int): int {
      now - heartbeatTimeout
    }

    constructor (timeout: int)
      ensures Valid() && Tables() == EMPTY && configCache.None?
      ensures heartbeatTimeout == if timeout <= 0 then 60 else timeout
    {
      shards, config, nextId, configCache := [], None, 1, None;
      heartbeatTimeout := if timeout <= 0 then 60 else timeout;
    }

    method Bootstrap(cfg: ClusterConfig) returns (outcome: Outcome)
      requires Valid()
      modifies `config, `configCache
      ensures Valid()
      ensures Tables() == Transactions.Bootstrap(old(Tables()), cfg).db
      ensures outcome == Transactions.Bootstrap(old(Tables()), cfg).outcome
      ensures configCache == if outcome == Done then Some(cfg) else old(configCache)
    {
      if config.Some? {
        return AlreadyBootstrapped;
      }
      if !ValidSpec(cfg.spec) {
        return InvalidArgument;
      }
      BootstrapRefines(Tables(), cfg);
      config := Some(ConfigRow(cfg, 1));
      configCache := Some(cfg);
      outcome := Done;
    }

    /** Served from memory when cached; the answer is the stored config either way. */
    method GetConfig() returns (cfg: Option<ClusterConfig>)
      requires Valid()
      modifies `configCache
      ensures Valid()
      ensures cfg == if config.Some? then Some(config.value.config) else None
      ensures configCache == cfg
    {
      if configCache.Some? {
        return configCache;
      }
      if config.None? {
        return None;
      }
      configCache := Some(config.value.config);
      cfg := configCache;
    }

    /** Writes the rows and bumps the version, unless the unique index rejects the rows. */
    method CommitRows(rows: seq<Shard>) returns (outcome: Outcome)
      modifies `shards, `config
      ensures Tables() == Commit(old(Tables()), rows, None).db
      ensures outcome == Commit(old(Tables()), rows, None).outcome
    {
      if !OneActivePerBucket(rows) {
        return UniqueViolation;
      }
      shards := rows;
      config := Bump(config);
      outcome := Done;
    }

    method RegisterShard(uuid: string, role: Role, dsn: string, url: string, startup: State, now: int)
      returns (outcome: Outcome, registered: Option<Shard>)
      requires Valid()
      modifies `shards, `config, `nextId
      ensures Valid()
      ensures Tables() == Exec(old(Tables()), CallRegister(uuid, role, dsn, url, startup), now).db
      ensures outcome == Exec(old(Tables()), CallRegister(uuid, role, dsn, url, startup), now).outcome
      ensures registered.Some? <==> outcome == Done
      ensures registered.Some? ==> registered.value in shards && registered.value.uuid == uuid
                                   && registered.value.dsn == dsn && registered.value.advertiseUrl == NullStr(url)
    {
      StepKept(Tables(), CallRegister(uuid, role, dsn, url, startup), now);
      hide Inv, First, Update;
      var state := StartupState(role, startup);
      if role == Data && !StartupStateAllowed(state) {
        return InvalidArgument, None;
      }
      if role == Error && Any(shards, ErrorRole) {
        return Conflict, None;
      }
      var known := First(shards, WithUuid(uuid));
      if known.Some? {
        shards := UpdateAt(shards, known.value, SetEndpoint(dsn, NullStr(url), now));
        registered := Some(shards[known.value]);
      } else {
        shards := shards + [NewShard(nextId, uuid, role, dsn, url, state, now)];
        registered := Some(shards[|shards| - 1]);
      }
      nextId := nextId + 1;
      config := Bump(config);
      outcome := Done;
    }

    method PromoteStandbyToActive(b: string, now: int) returns (outcome: Outcome, promoted: Option<nat>)
      requires Valid()
      modifies `shards, `config
      ensures Valid()
      ensures Tables() == Exec(old(Tables()), CallPromote(b), now).db
      ensures outcome == Exec(old(Tables()), CallPromote(b), now).outcome
      ensures promoted == Exec(old(Tables()), CallPromote(b), now).promoted
    {
      StepKept(Tables(), CallPromote(b), now);
      hide Inv, First, Update;
      var standby := First(shards, StandbyPool);
      if standby.None? {
        return NotFound, None;
      }
      outcome := CommitRows(UpdateAt(shards, standby.value, ToActive(b, now)));
      promoted := if outcome == Done then standby else None;
    }

    method SealRotate(b: string, now: int) returns (outcome: Outcome)
      requires Valid()
      modifies `shards, `config
      ensures Valid()
      ensures Tables() == Exec(old(Tables()), CallSealRotate(b), now).db
      ensures outcome == Exec(old(Tables()), CallSealRotate(b), now).outcome
    {
      StepKept(Tables(), CallSealRotate(b), now);
      hide Inv, First, Update;
      var active := First(shards, ActiveIn(b));
      if active.None? {
        return NotFound;
      }
      var rows := UpdateAt(shards, active.value, ToSealed);
      var standby := First(rows, StandbyPool);
      if standby.Some? {
        rows := UpdateAt(rows, standby.value, ToActive(b, now));
      }
      outcome := CommitRows(rows);
    }

    method CompleteDrainSeal(b: string, now: int) returns (outcome: Outcome)
      requires Valid()
      modifies `shards, `config
      ensures Valid()
      ensures Tables() == Exec(old(Tables()), CallCompleteDrainSeal(b), now).db
      ensures outcome == Exec(old(Tables()), CallCompleteDrainSeal(b), now).outcome
    {
      StepKept(Tables(), CallCompleteDrainSeal(b), now);
      hide Inv, First, Update;
      var draining := First(shards, DrainingIn(b));
      if draining.None? {
        return NotFound;
      }
      var rows := UpdateAt(shards, draining.value, ToSealedAfterDrain);
      var standby := First(rows, StandbyPool);
      if standby.Some? {
        rows := UpdateAt(rows, standby.value, ToActive(b, now));
      }
      outcome := CommitRows(rows);
    }

    method BeginDrain(b: string, now: int) returns (outcome: Outcome)
      requires Valid()
      modifies `shards, `config
      ensures Valid()
      ensures Tables() == Exec(old(Tables()), CallBeginDrain(b), now).db
      ensures outcome == Exec(old(Tables()), CallBeginDrain(b), now).outcome
    {
      StepKept(Tables(), CallBeginDrain(b), now);
      hide Inv, First, Update;
      if !Any(shards, ActiveIn(b)) {
        return NotFound;
      }
      shards := Update(shards, ActiveIn(b), ToDraining(now));
      config := Bump(config);
      outcome := Done;
    }

    method MarkDrainReady(uuid: string, now: int) returns (outcome: Outcome)
      requires Valid()
      modifies `shards
      ensures Valid()
      ensures Tables() == Exec(old(Tables()), CallMarkDrainReady(uuid), now).db
      ensures outcome == Exec(old(Tables()), CallMarkDrainReady(uuid), now).outcome
    {
      StepKept(Tables(), CallMarkDrainReady(uuid), now);
      hide Inv, First, Update;
      if !Any(shards, WithUuidAndState(uuid, Draining)) {
        return NotFound;
      }
      shards := Update(shards, WithUuidAndState(uuid, Draining), SetDrainReady);
      outcome := Done;
    }

    method UpdateStats(uuid: string, bytes: int, now: int) returns (outcome: Outcome)
      requires Valid()
      modifies `shards
      ensures Valid()
      ensures Tables() == Exec(old(Tables()), CallUpdateStats(uuid, bytes), now).db
      ensures outcome == Exec(old(Tables()), CallUpdateStats(uuid, bytes), now).outcome
    {
      StepKept(Tables(), CallUpdateStats(uuid, bytes), now);
      hide Inv, First, Update;
      if !Any(shards, WithUuid(uuid)) {
        return NotFound;
      }
      shards := Update(shards, WithUuid(uuid), SetStats(bytes, now));
      outcome := Done;
    }

    method PatchState(id: int, state: State, now: int) returns (outcome: Outcome)
      requires Valid()
      modifies `shards, `config
      ensures Valid()
      ensures Tables() == Exec(old(Tables()), CallPatchState(id, state), now).db
      ensures outcome == Exec(old(Tables()), CallPatchState(id, state), now).outcome
    {
      StepKept(Tables(), CallPatchState(id, state), now);
      hide Inv, First, Update;
      var k := First(shards, WithId(id));
      if k.None? {
        return NotFound;
      }
      if !CanTransition(shards[k.value].role, shards[k.value].state, state) {
        return InvalidArgument;
      }
      outcome := CommitRows(UpdateAt(shards, k.value, SetState(state)));
    }

    /** Returns the number of rows that moved. */
    method MarkBucketCleaning(b: string, now: int) returns (affected: nat)
      requires Valid()
      modifies `shards, `config
      ensures Valid()
      ensures Tables() == Exec(old(Tables()), CallMarkCleaning(b), now).db
      ensures affected == Count(old(shards), SealedIn(b))
    {
      StepKept(Tables(), CallMarkCleaning(b), now);
      MarkCleaningStep(Tables(), b, now);
      hide Inv, Any, Update, Count, Exec;
      affected := Count(shards, SealedIn(b));
      if Any(shards, SealedIn(b)) {
        shards := Update(shards, SealedIn(b), ToCleaning);
        config := Bump(config);
      }
    }

    method FinishCleaning(uuid: string, now: int)
      requires Valid()
      modifies `shards, `config
      ensures Valid()
      ensures Tables() == Exec(old(Tables()), CallFinishCleaning(uuid), now).db
    {
      StepKept(Tables(), CallFinishCleaning(uuid), now);
      hide Inv, First, Update;
      if Any(shards, WithUuidAndState(uuid, Cleaning)) {
        shards := Update(shards, WithUuidAndState(uuid, Cleaning), Recycle);
        config := Bump(config);
      }
    }

    /** The three queries and the promotion of AutoPromoteIfNoActive with nothing in between. */
    method AutoPromoteIfNoActive(b: string, now: int) returns (outcome: Outcome, promoted: Option<nat>)
      requires Valid()
      modifies `shards, `config
      ensures Valid()
      ensures Tables() == Exec(old(Tables()), CallAutoPromote(b, Cutoff(now)), now).db
      ensures outcome == Exec(old(Tables()), CallAutoPromote(b, Cutoff(now)), now).outcome
      ensures promoted == Exec(old(Tables()), CallAutoPromote(b, Cutoff(now)), now).promoted
    {
      hide Inv, First;
      if Any(shards, FreshActiveIn(b, Cutoff(now))) {
        return Done, None;
      }
      if Any(shards, WriterIn(b)) {
        return NotFound, None;
      }
      outcome, promoted := PromoteStandbyToActive(b, now);
    }

    // ---- list queries --------------------------------------------------------------------------

    /** The row loop of the list queries: the matching rows in id order. */
    method Query(w: Where) returns (out: seq<Shard>)
      ensures out == Select(shards, w)
    {
      out := [];
      for i := 0 to |shards|
        invariant out == Select(shards[..i], w)
      {
        assert shards[..i + 1][..i] == shards[..i];
        if Matches(w, shards[i]) {
          out := out + [shards[i]];
        }
      }
      assert shards[..|shards|] == shards;
    }

    /** ShardsNeedingSeal: active data shards at or over their own limit, or the default one. */
    method ShardsNeedingSeal(defaultMax: int) returns (out: seq<Shard>)
      ensures out == KeepFull(Select(shards, ActiveAnywhere), defaultMax)
    {
      var rows := Query(ActiveAnywhere);
      out := [];
      for i := 0 to |rows|
        invariant out == KeepFull(rows[..i], defaultMax)
      {
        assert rows[..i + 1][..i] == rows[..i];
        var max := defaultMax;
        if rows[i].maxBytes.Some? {
          max := rows[i].maxBytes.value;
        }
        if rows[i].reportedBytes >= max {
          out := out + [rows[i]];
        }
      }
      assert rows[..|rows|] == rows;
    }

    /** DistinctBucketIDs: every bucket some data shard is assigned to, once. */
    method DistinctBucketIDs() returns (out: seq<string>)
      ensures forall b :: b in out <==> exists k :: 0 <= k < |shards| && InBucket(shards[k], b)
      ensures forall i, j :: 0 <= i < j < |out| ==> out[i] != out[j]
    {
      out := [];
      for i := 0 to |shards|
        invariant forall b :: b in out <==> exists k :: 0 <= k < i && InBucket(shards[k], b)
        invariant forall i, j :: 0 <= i < j < |out| ==> out[i] != out[j]
      {
        if shards[i].role == Data && shards[i].bucket.Some? && shards[i].bucket.value !in out {
          assert InBucket(shards[i], shards[i].bucket.value);
          out := out + [shards[i].bucket.value];
        }
      }
    }
  }
}

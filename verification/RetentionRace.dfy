/** The retention tick as separate reads and writes, with any store calls and clock advances in between. */
module RetentionRace {
  import opened Common
  import opened Fsm
  import opened Bucket
  import opened Routing
  import opened Table
  import opened Transactions
  import opened Lifecycle
  import opened Runs
  import opened Supervisors

  /** Where a tick is: it keeps the time and config it started with, then the evicted buckets still to do. */
  datatype Tick =
    | Idle
    | Started(at: int, config: ClusterConfig)
    | Working(at: int, config: ClusterConfig, todo: seq<string>, checked: bool)

  datatype System = System(db: Db, clock: int, tick: Tick)

  datatype Action =
    | StoreCall(call: Call)
    | Advance(to: int)
    | Start
    | List(known: seq<string>)
    | Check
    | Mark
    | Finish

  ghost predicate KnownBuckets(rows: seq<Shard>, known: seq<string>) {
    forall b :: b in known <==> exists k :: 0 <= k < |rows| && InBucket(rows[k], b)
  }

  ghost predicate Enabled(s: System, a: Action) {
    match a
    case StoreCall(_) => true
    case Advance(t) => s.clock <= t && InInt64(t)
    case Start =>
      && s.tick.Idle? && s.db.config.Some?
      && s.db.config.value.config.spec.TimeAxis? && s.db.config.value.config.retentionDepth.Some?
    case List(known) =>
      s.tick.Started? && KnownBuckets(s.db.shards, known) && CurrentIndex(s.tick.config.spec, s.tick.at).Some?
    case Check => s.tick.Working? && |s.tick.todo| > 0 && !s.tick.checked
    case Mark => s.tick.Working? && |s.tick.todo| > 0 && s.tick.checked
    case Finish => s.tick.Started? || (s.tick.Working? && |s.tick.todo| == 0)
  }

  function Next(s: System, a: Action): System
    requires a.List? ==> s.tick.Started? && s.tick.config.retentionDepth.Some?
    requires a.Start? ==> s.db.config.Some?
    requires a.Check? || a.Mark? ==> s.tick.Working? && |s.tick.todo| > 0
  {
    match a
    case StoreCall(call) => s.(db := Exec(s.db, call, s.clock).db)
    case Advance(t) => s.(clock := t)
    case Start => s.(tick := Started(s.clock, s.db.config.value.config))
    case List(known) =>
      var c := s.tick.config;
      s.(tick := Working(s.tick.at, c, KeepEvicted(c.spec, s.tick.at, c.retentionDepth.value, known), false))
    case Check =>
      if Any(s.db.shards, WriterIn(s.tick.todo[0])) then s.(tick := s.tick.(todo := s.tick.todo[1..]))
      else s.(tick := s.tick.(checked := true))
    case Mark =>
      s.(db := MarkBucketCleaning(s.db, s.tick.todo[0]).db, tick := s.tick.(todo := s.tick.todo[1..], checked := false))
    case Finish => s.(tick := Idle)
  }

  /** The tick works on the stored config, and what it still has to do was evicted when it started. */
  predicate TickInv(s: System) {
    && Inv(s.db) && InInt64(s.clock)
    && (!s.tick.Idle? ==>
          && InInt64(s.tick.at) && s.tick.at <= s.clock
          && s.db.config.Some? && s.db.config.value.config == s.tick.config
          && s.tick.config.spec.TimeAxis? && s.tick.config.retentionDepth.Some?)
    && (s.tick.Working? ==>
          forall i :: 0 <= i < |s.tick.todo| ==>
            Evicted(s.tick.config.spec, s.tick.at, s.tick.config.retentionDepth.value, s.tick.todo[i]))
  }

  lemma TickStep(s: System, a: Action)
    requires TickInv(s) && Enabled(s, a)
    ensures TickInv(Next(s, a))
  {
    hide Inv, Evicted, Exec, CurrentIndex;
    match a
    case StoreCall(call) =>
      StepRefines(s.db, call, s.clock);
      VersionStep(s.db, call, s.clock);
    case Advance(_) =>
    case Start =>
    case List(known) =>
      var c := s.tick.config;
      var todo := KeepEvicted(c.spec, s.tick.at, c.retentionDepth.value, known);
      assert forall i :: 0 <= i < |todo| ==> todo[i] in todo;
    case Check =>
    case Mark =>
      MarkKeeps(s.db, s.tick.todo[0]);
    case Finish =>
  }

  lemma MarkKeeps(db: Db, b: string)
    requires Inv(db)
    ensures Inv(MarkBucketCleaning(db, b).db)
    ensures db.config.Some? ==>
              && MarkBucketCleaning(db, b).db.config.Some?
              && MarkBucketCleaning(db, b).db.config.value.config == db.config.value.config
  {
    hide MarkBucketCleaning, Inv, Routes;
    StepRefines(db, CallMarkCleaning(b), 0);
    VersionStep(db, CallMarkCleaning(b), 0);
  }

  /** states[0], actions[0], states[1], ... */
  datatype Trace = Trace(states: seq<System>, actions: seq<Action>) {
    ghost predicate Valid() {
      && |states| == |actions| + 1
      && states[0].db == EMPTY && InInt64(states[0].clock) && states[0].tick.Idle?
      && forall i :: 0 <= i < |actions| ==> StepOk(states[i], actions[i], states[i + 1])
    }
  }

  ghost predicate StepOk(s: System, a: Action, next: System) {
    && Enabled(s, a)
    && (a.List? ==> s.tick.config.retentionDepth.Some?)
    && next == Next(s, a)
  }

  lemma {:induction false} TickInvAlways(t: Trace, i: nat)
    requires t.Valid() && i < |t.states|
    ensures TickInv(t.states[i])
  {
    if i > 0 {
      TickInvAlways(t, i - 1);
      assert StepOk(t.states[i - 1], t.actions[i - 1], t.states[i]);
      TickStep(t.states[i - 1], t.actions[i - 1]);
    }
  }

  /**
   Whatever happened between listing, checking and marking: a row that a mark step changes was a sealed data shard,
   and no key is routed to its bucket at the time of marking or at any later time.
   */
  lemma RetentionIsSafe(t: Trace, i: nat, k: nat, lib: Lib, key: Key, later: int, maxFuture: int)
    requires t.Valid() && i < |t.actions| && t.actions[i].Mark?
    requires k < |t.states[i].db.shards| == |t.states[i + 1].db.shards|
    requires t.states[i].db.shards[k] != t.states[i + 1].db.shards[k]
    requires t.states[i].clock <= later && InInt64(later)
    ensures var s := t.states[i]; var r := s.db.shards[k];
            && r.role == Data && r.state == Sealed && r.bucket.Some?
            && s.db.config.Some? && s.db.config.value.config.retentionDepth.Some?
            && ValidSpec(s.db.config.value.config.spec)
            && ClassifyWrite(lib, s.db.config.value.config.spec, later, key,
                             s.db.config.value.config.retentionDepth.value, maxFuture) != Some(ToBucket(r.bucket.value))
  {
    hide ClassifyWrite, Inv, Evicted, Exec, MarkBucketCleaning;
    TickInvAlways(t, i);
    assert StepOk(t.states[i], t.actions[i], t.states[i + 1]);
    var s := t.states[i];
    var c := s.tick.config;
    var b := s.tick.todo[0];
    MarkMovesSealed(s.db, b, k);
    assert Evicted(c.spec, s.tick.at, c.retentionDepth.value, b);
    EvictedIsUnroutable(lib, c.spec.unit, s.tick.at, later, key, c.retentionDepth.value, maxFuture, b);
  }

  lemma MarkMovesSealed(db: Db, b: string, k: nat)
    requires k < |db.shards| == |MarkBucketCleaning(db, b).db.shards|
    requires MarkBucketCleaning(db, b).db.shards[k] != db.shards[k]
    ensures Matches(SealedIn(b), db.shards[k])
  {
  }

  // ---- alone, the tick cleans every bucket it listed ---------------------------------------------------------------

  /** The rest of a working tick with nothing in between. */
  function Alone(s: System): System
    requires s.tick.Working?
    decreases |s.tick.todo|, if s.tick.checked then 0 else 1
  {
    if |s.tick.todo| == 0 then s
    else Alone(Next(s, if s.tick.checked then Mark else Check))
  }

  lemma {:induction false} CleanAllCons(db: Db, b: string, rest: seq<string>)
    ensures CleanAll(db, [b] + rest)
            == CleanAll(if Any(db.shards, WriterIn(b)) then db else MarkBucketCleaning(db, b).db, rest)
  {
    hide Any, MarkBucketCleaning;
    var list := [b] + rest;
    if |rest| == 0 {
      assert list[..0] == [] && CleanAll(db, list[..0]) == db;
    } else {
      var n := |rest| - 1;
      assert list[..|list| - 1] == [b] + rest[..n];
      CleanAllCons(db, b, rest[..n]);
    }
  }

  /** It checks each listed bucket in turn, and marks those without a writer. */
  lemma {:induction false} AloneCleansAll(s: System)
    requires s.tick.Working? && !s.tick.checked
    ensures Alone(s).db == CleanAll(s.db, s.tick.todo) && Alone(s).clock == s.clock
    decreases |s.tick.todo|
  {
    if |s.tick.todo| > 0 {
      hide MarkBucketCleaning, CleanAll, Any;
      var b, rest := s.tick.todo[0], s.tick.todo[1..];
      assert s.tick.todo == [b] + rest;
      CleanAllCons(s.db, b, rest);
      var c := Next(s, Check);
      if Any(s.db.shards, WriterIn(b)) {
        AloneCleansAll(c);
      } else {
        AloneCleansAll(Next(c, Mark));
      }
    }
  }

  /**
   The order of a tick: start in a time cluster with a retention depth, list once, then check and mark each bucket in
   turn, and stop after the last; any store call may come at any point.
   */
  lemma TickOrder(s: System, known: seq<string>, call: Call)
    ensures Enabled(s, StoreCall(call))
    ensures Enabled(s, Start) <==> s.tick.Idle? && s.db.config.Some? && s.db.config.value.config.spec.TimeAxis?
                                   && s.db.config.value.config.retentionDepth.Some?
    ensures s.tick.Started? ==> !Enabled(s, Check) && !Enabled(s, Mark)
    ensures s.tick.Started? && CurrentIndex(s.tick.config.spec, s.tick.at).Some? ==>
              (Enabled(s, List(known)) <==>
                 forall b :: b in known <==> exists k :: 0 <= k < |s.db.shards| && InBucket(s.db.shards[k], b))
    ensures s.tick.Working? ==>
              && !Enabled(s, List(known))
              && (Enabled(s, Check) <==> |s.tick.todo| > 0 && !s.tick.checked)
              && (Enabled(s, Mark) <==> |s.tick.todo| > 0 && s.tick.checked)
              && (Enabled(s, Finish) <==> |s.tick.todo| == 0)
  {
    hide CurrentIndex;
  }

  /** A tick that lists `known` works through exactly the evicted ones of them, in order. */
  lemma AloneFromStart(s: System, known: seq<string>)
    requires s.tick.Idle? && Enabled(s, Start)
    ensures var c := s.db.config.value.config;
            var listed := Next(Next(s, Start), List(known));
            && Alone(listed).db == CleanAll(s.db, KeepEvicted(c.spec, s.clock, c.retentionDepth.value, known))
  {
    hide Alone, CleanAll, KeepEvicted;
    AloneCleansAll(Next(Next(s, Start), List(known)));
  }
}

/** Each step that Endangers names does harm: concrete traces from the empty cluster. */
module AgentRaces {
  import opened Common
  import opened Fsm
  import opened Table
  import opened Transactions
  import opened Agent

  /** A cluster of the one shard "u". */
  function OneShard(bucket: Option<string>, state: State, version: int): Db {
    Db([Shard(1, "u", Data, bucket, state, "d", None, 0, None, Some(0), None, false, version)], None, 2)
  }

  lemma OnlyRow(db: Db, w: Where)
    requires |db.shards| == 1
    ensures First(db.shards, w) == if Matches(w, db.shards[0]) then Some(0) else None
  {
  }

  // ---- the life of the shard, call by call ------------------------------------------------------------------

  lemma Registered()
    ensures Exec(EMPTY, CallRegister("u", Data, "d", "", Standby), 0).db == OneShard(None, Standby, 1)
  {
  }

  lemma Promoted(b: string, v: int)
    ensures Exec(OneShard(None, Standby, v), CallPromote(b), 0).db == OneShard(Some(b), Active, v + 1)
  {
    OnlyRow(OneShard(None, Standby, v), StandbyPool);
  }

  lemma Rotated(b: string, v: int)
    ensures Exec(OneShard(Some(b), Active, v), CallSealRotate(b), 0).db == OneShard(Some(b), Sealed, v + 1)
  {
    OnlyRow(OneShard(Some(b), Active, v), ActiveIn(b));
    OnlyRow(OneShard(Some(b), Sealed, v + 1), StandbyPool);
  }

  lemma Marked(b: string, v: int)
    ensures Exec(OneShard(Some(b), Sealed, v), CallMarkCleaning(b), 0).db == OneShard(Some(b), Cleaning, v + 1)
  {
    OnlyRow(OneShard(Some(b), Sealed, v), SealedIn(b));
  }

  lemma Finished(b: string, v: int)
    ensures Exec(OneShard(Some(b), Cleaning, v), CallFinishCleaning("u"), 0).db == OneShard(None, Standby, v + 1)
  {
    OnlyRow(OneShard(Some(b), Cleaning, v), WithUuidAndState("u", Cleaning));
  }

  lemma Patched(b: string, from: State, to: State, v: int)
    requires CanTransition(Data, from, to)
    ensures Exec(OneShard(Some(b), from, v), CallPatchState(1, to), 0).db == OneShard(Some(b), to, v + 1)
  {
    OnlyRow(OneShard(Some(b), from, v), WithId(1));
  }

  lemma StatsReported(bucket: Option<string>, state: State, v: int)
    ensures Exec(OneShard(bucket, state, v), CallUpdateStats("u", 0), 0).db == OneShard(bucket, state, v)
  {
    OnlyRow(OneShard(bucket, state, v), WithUuid("u"));
  }

  lemma Looked(s: System, bucket: Option<string>, state: State, v: int)
    requires s.db == OneShard(bucket, state, v)
    ensures Known(s, "u") && StateOf(s.db, "u") == Some(state)
  {
    OnlyRow(s.db, WithUuid("u"));
  }

  // ---- traces with one dangerous step -------------------------------------------------------------------------

  function Last(t: Trace): System
    requires t.Valid()
  {
    t.states[|t.states| - 1]
  }

  /** A trace from the empty cluster in which at most step `at` is dangerous. */
  predicate OneSlip(t: Trace, at: nat) {
    t.Valid() && forall i :: 0 <= i < |t.actions| && i != at ==> !Endangers(t.states[i], t.actions[i])
  }

  lemma Begin(at: nat) returns (t: Trace)
    ensures t.Valid() && OneSlip(t, at) && t.actions == [] && Last(t) == System(EMPTY, map[], {})
  {
    t := Trace([System(EMPTY, map[], {})], []);
  }

  lemma Extend(t: Trace, at: nat, a: Action) returns (next: Trace)
    requires OneSlip(t, at) && Enabled(Last(t), a) && (Endangers(Last(t), a) ==> |t.actions| == at)
    ensures next.Valid() && OneSlip(next, at)
    ensures next.actions == t.actions + [a] && next.states == t.states + [Next(Last(t), a)]
    ensures Last(next) == Next(Last(t), a)
  {
    hide Enabled, Endangers, Next;
    next := Trace(t.states + [Next(Last(t), a)], t.actions + [a]);
    var n := |t.actions|;
    forall i | 0 <= i < n + 1
      ensures Enabled(next.states[i], next.actions[i]) && next.states[i + 1] == Next(next.states[i], next.actions[i])
      ensures i != at ==> !Endangers(next.states[i], next.actions[i])
    {
      assert i < n ==> next.states[i] == t.states[i] && next.states[i + 1] == t.states[i + 1];
      assert i < n ==> next.actions[i] == t.actions[i];
    }
  }

  /** A written shard is sealed, marked for cleaning, and its agent has seen that and is about to truncate. */
  lemma AboutToTruncate(at: nat) returns (t: Trace)
    requires at >= 7
    ensures t.Valid() && OneSlip(t, at) && |t.actions| == 7
    ensures Last(t) == System(OneShard(Some("b"), Cleaning, 4), map["u" := Saw(Cleaning)], {"u"})
  {
    hide Exec, StateOf, Known, OneSlip, OneShard;
    t := Begin(at);
    Registered();
    t := Extend(t, at, ServerCall(CallRegister("u", Data, "d", "", Standby), 0));
    Promoted("b", 1);
    t := Extend(t, at, ServerCall(CallPromote("b"), 0));
    Looked(Last(t), Some("b"), Active, 2);
    t := Extend(t, at, Write("u"));
    Rotated("b", 2);
    t := Extend(t, at, ServerCall(CallSealRotate("b"), 0));
    Marked("b", 3);
    t := Extend(t, at, ServerCall(CallMarkCleaning("b"), 0));
    Looked(Last(t), Some("b"), Cleaning, 4);
    StatsReported(Some("b"), Cleaning, 4);
    t := Extend(t, at, ReportStats("u", 0, 0));
    Looked(Last(t), Some("b"), Cleaning, 4);
    t := Extend(t, at, Observe("u"));
  }

  /** The one dangerous step is `a`, at position `at`. */
  predicate SlipsOnceBy(t: Trace, at: nat, a: Action) {
    OneSlip(t, at) && at < |t.actions| && t.actions[at] == a && Endangers(t.states[at], a)
  }

  /** The last step truncates a shard that is active and holds data. */
  predicate TruncatesActive(t: Trace) {
    && t.Valid() && |t.actions| > 0
    && var n := |t.actions| - 1;
    t.actions[n] == Truncate("u") && StateOf(t.states[n].db, "u") == Some(Active) && "u" in t.states[n].loaded
  }

  /** The last state has a shard with data in the standby pool. */
  predicate PoolHoldsData(t: Trace) {
    && t.Valid() && |Last(t).db.shards| == 1
    && Matches(StandbyPool, Last(t).db.shards[0]) && Last(t).db.shards[0].uuid in Last(t).loaded
  }

  lemma PatchEndangers(s: System)
    requires s.db == OneShard(Some("b"), Cleaning, 4) && "u" in s.loaded
    ensures Endangers(s, ServerCall(CallPatchState(1, Standby), 0))
  {
    OnlyRow(s.db, WithId(1));
  }

  lemma ActivationIsHarmless(s: System)
    ensures !Endangers(s, ServerCall(CallPatchState(1, Active), 0))
  {
  }

  lemma AgentIsHarmless(s: System, a: Action)
    requires !a.ServerCall? && !a.Write?
    ensures !Endangers(s, a)
  {
  }

  /** Ending cleaning by hand and activating the shard lets the agent truncate live data. */
  lemma ManualPatchRace() returns (t: Trace)
    ensures SlipsOnceBy(t, 7, ServerCall(CallPatchState(1, Standby), 0)) && TruncatesActive(t)
  {
    hide Exec, StateOf, Known, OneSlip, OneShard, First, Endangers;
    t := AboutToTruncate(7);
    PatchEndangers(Last(t));
    Patched("b", Cleaning, Standby, 4);
    t := Extend(t, 7, ServerCall(CallPatchState(1, Standby), 0));
    Patched("b", Standby, Active, 5);
    ActivationIsHarmless(Last(t));
    t := Extend(t, 7, ServerCall(CallPatchState(1, Active), 0));
    Looked(Last(t), Some("b"), Active, 6);
    AgentIsHarmless(Last(t), Truncate("u"));
    t := Extend(t, 7, Truncate("u"));
  }

  /**
   A second agent, or a report that is late, ends the cleaning; the shard is promoted and written before the
   truncation.
   */
  lemma SecondAgentRace() returns (t: Trace)
    ensures SlipsOnceBy(t, 7, ServerCall(CallFinishCleaning("u"), 0)) && TruncatesActive(t)
  {
    hide Exec, StateOf, Known, OneSlip, OneShard, First;
    t := AboutToTruncate(7);
    Looked(Last(t), Some("b"), Cleaning, 4);
    Finished("b", 4);
    t := Extend(t, 7, ServerCall(CallFinishCleaning("u"), 0));
    Promoted("c", 5);
    t := Extend(t, 7, ServerCall(CallPromote("c"), 0));
    Looked(Last(t), Some("c"), Active, 6);
    t := Extend(t, 7, Write("u"));
    Looked(Last(t), Some("c"), Active, 6);
    t := Extend(t, 7, Truncate("u"));
  }

  /** A client with a stale cache writes between the truncation and the report: the pool gets a shard with data. */
  lemma LateWriteRace() returns (t: Trace)
    ensures SlipsOnceBy(t, 8, Write("u")) && PoolHoldsData(t)
  {
    hide Exec, StateOf, Known, OneSlip, First;
    t := AboutToTruncate(8);
    t := Extend(t, 8, Truncate("u"));
    Looked(Last(t), Some("b"), Cleaning, 4);
    t := Extend(t, 8, Write("u"));
    Finished("b", 4);
    t := Extend(t, 8, ReportCleaned("u"));
  }

  /** The agent gives up on its report and cleans again; the first report arrives in the shard's next cleaning. */
  lemma LateReportRace() returns (t: Trace)
    ensures SlipsOnceBy(t, 17, ServerCall(CallFinishCleaning("u"), 0)) && PoolHoldsData(t)
  {
    hide Exec, StateOf, Known, OneSlip, First;
    t := CleanedTwice();
    Promoted("c", 5);
    t := Extend(t, 17, ServerCall(CallPromote("c"), 0));
    Looked(Last(t), Some("c"), Active, 6);
    t := Extend(t, 17, Write("u"));
    Rotated("c", 6);
    t := Extend(t, 17, ServerCall(CallSealRotate("c"), 0));
    Marked("c", 7);
    t := Extend(t, 17, ServerCall(CallMarkCleaning("c"), 0));
    Looked(Last(t), Some("c"), Cleaning, 8);
    Finished("c", 8);
    t := Extend(t, 17, ServerCall(CallFinishCleaning("u"), 0));
  }

  lemma CleanedTwice() returns (t: Trace)
    ensures t.Valid() && OneSlip(t, 17) && |t.actions| == 13
    ensures Last(t) == System(OneShard(None, Standby, 5), map["u" := Idle], {})
  {
    hide Exec, StateOf, Known, OneSlip, OneShard, First, Endangers;
    t := AboutToTruncate(17);
    AgentIsHarmless(Last(t), Truncate("u"));
    t := Extend(t, 17, Truncate("u"));
    AgentIsHarmless(Last(t), GiveUp("u"));
    t := Extend(t, 17, GiveUp("u"));
    Looked(Last(t), Some("b"), Cleaning, 4);
    StatsReported(Some("b"), Cleaning, 4);
    AgentIsHarmless(Last(t), ReportStats("u", 0, 0));
    t := Extend(t, 17, ReportStats("u", 0, 0));
    Looked(Last(t), Some("b"), Cleaning, 4);
    AgentIsHarmless(Last(t), Observe("u"));
    t := Extend(t, 17, Observe("u"));
    AgentIsHarmless(Last(t), Truncate("u"));
    t := Extend(t, 17, Truncate("u"));
    Finished("b", 4);
    AgentIsHarmless(Last(t), ReportCleaned("u"));
    t := Extend(t, 17, ReportCleaned("u"));
  }
}

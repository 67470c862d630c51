/** One tick of an agent with nothing in between: what it achieves in each state of its shard. */
module AgentTicks {
  import opened Common
  import opened Fsm
  import opened Table
  import opened Transactions
  import opened Lifecycle
  import opened Agent
  import opened Effects

  /** Row `k` is the row of `u`, and its agent rests. */
  predicate Rests(s: System, u: string, k: nat) {
    Inv(s.db) && k < |s.db.shards| && s.db.shards[k].uuid == u && PcOf(s, u).Idle?
  }

  lemma RowOf(db: Db, u: string, k: nat)
    requires Inv(db) && k < |db.shards| && db.shards[k].uuid == u
    ensures First(db.shards, WithUuid(u)) == Some(k)
  {
    var f := First(db.shards, WithUuid(u));
    assert Matches(WithUuid(u), db.shards[k]);
    UuidIsUnique(db, u, k, f.value);
  }

  function Observed(s: System, u: string, bytes: int, now: int): System {
    Next(Next(s, ReportStats(u, bytes, now)), Observe(u))
  }

  /** In every state the tick first reports size and heartbeat, and learns the stored state. */
  lemma TickObserves(s: System, u: string, k: nat, bytes: int, now: int)
    requires Rests(s, u, k)
    ensures Enabled(s, ReportStats(u, bytes, now)) && Enabled(Next(s, ReportStats(u, bytes, now)), Observe(u))
    ensures var o := Observed(s, u, bytes, now);
            && PcOf(o, u) == Saw(s.db.shards[k].state) && o.loaded == s.loaded && Inv(o.db)
            && o.db.shards == s.db.shards[k := s.db.shards[k].(reportedBytes := bytes, lastSeen := Some(now))]
  {
    hide Inv, Exec, First;
    RowOf(s.db, u, k);
    var s1 := Next(s, ReportStats(u, bytes, now));
    StatsColumns(s.db, u, bytes, now);
    StepRefines(s.db, CallUpdateStats(u, bytes), now);
    OnlyRowOf(s.db, u, k);
    assert s1.db.shards == s.db.shards[k := s.db.shards[k].(reportedBytes := bytes, lastSeen := Some(now))];
    RowOf(s1.db, u, k);
    hide RowsStep;
  }

  lemma OnlyRowOf(db: Db, u: string, k: nat)
    requires Inv(db) && k < |db.shards| && db.shards[k].uuid == u
    ensures forall i :: 0 <= i < |db.shards| ==> (db.shards[i].uuid == u <==> i == k)
  {
    forall i | 0 <= i < |db.shards|
      ensures db.shards[i].uuid == u <==> i == k
    {
      UuidIsUnique(db, u, k, i);
    }
  }

  lemma RecycledRows(db: Db, u: string, k: nat, now: int)
    requires Inv(db) && k < |db.shards| && CleaningOf(db.shards[k], u)
    ensures Exec(db, CallFinishCleaning(u), now).db.shards == db.shards[k := Blanked(db.shards[k])]
  {
    hide Inv, Exec, Blanked;
    OnlyRowOf(db, u, k);
    RecyclingColumns(db, u, now);
  }

  function Ready(r: Shard): Shard {
    r.(drainReady := true, version := r.version + 1)
  }

  lemma ReadyRows(db: Db, u: string, k: nat, now: int)
    requires Inv(db) && k < |db.shards| && DrainingOf(db.shards[k], u)
    ensures Exec(db, CallMarkDrainReady(u), now).db.shards == db.shards[k := Ready(db.shards[k])]
  {
    hide Inv, Exec;
    OnlyRowOf(db, u, k);
    DrainReadyColumns(db, u, now);
  }

  /** A tick on a shard in cleaning empties it and returns it blank to the pool; no other row changes. */
  lemma CleaningTick(s: System, u: string, k: nat, bytes: int, now: int)
    requires Rests(s, u, k) && s.db.shards[k].state == Cleaning
    ensures var o := Observed(s, u, bytes, now);
            var c := Next(o, Truncate(u));
            var d := Next(c, ReportCleaned(u));
            && Enabled(o, Truncate(u)) && Enabled(c, ReportCleaned(u))
            && u !in d.loaded && PcOf(d, u).Idle? && d.loaded == s.loaded - {u}
            && d.db.shards == s.db.shards[k := Blanked(s.db.shards[k].(reportedBytes := bytes, lastSeen := Some(now)))]
  {
    hide Inv, Exec, Blanked, Observed;
    TickObserves(s, u, k, bytes, now);
    RecycledRows(Observed(s, u, bytes, now).db, u, k, 0);
  }

  /** A tick on a draining shard ends with its ready flag up; no other row changes. */
  lemma DrainingTick(s: System, u: string, k: nat, bytes: int, now: int)
    requires Rests(s, u, k) && s.db.shards[k].state == Draining
    ensures var o := Observed(s, u, bytes, now);
            var c := Next(o, Drain(u));
            var d := Next(c, ReportDrainComplete(u));
            && Enabled(o, Drain(u)) && Enabled(c, ReportDrainComplete(u))
            && d.loaded == s.loaded && PcOf(d, u).Idle?
            && var r := s.db.shards[k];
            d.db.shards == s.db.shards[k := r.(reportedBytes := bytes, lastSeen := Some(now), drainReady := true,
                                               version := r.version + 1)]
  {
    hide Inv, Exec, Observed;
    TickObserves(s, u, k, bytes, now);
    ReadyRows(Observed(s, u, bytes, now).db, u, k, 0);
  }

  /** In every other state the agent has nothing to do: it may neither truncate nor drain. */
  lemma QuietTick(s: System, u: string, k: nat, bytes: int, now: int)
    requires Rests(s, u, k) && s.db.shards[k].state != Cleaning && s.db.shards[k].state != Draining
    ensures var o := Observed(s, u, bytes, now);
            && !Enabled(o, Truncate(u)) && !Enabled(o, Drain(u))
            && !Enabled(o, ReportCleaned(u)) && !Enabled(o, ReportDrainComplete(u))
  {
    hide Inv, Exec, Observed;
    TickObserves(s, u, k, bytes, now);
  }
}

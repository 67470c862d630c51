/**
 ensureActive of internal/resolve/resolve.go as the separate statements it consists of, with any store calls and clock
 advances in between: what its answer still means, and that it is Resolve.EnsureActive when nothing intervenes.
 */
module ResolveRace {
  import opened Common
  import opened Fsm
  import opened Table
  import opened Transactions
  import opened Lifecycle
  import opened Runs
  import OneWriter
  import opened Resolve

  /** The statement to run next: the reads and transactions of ensureActive, failover and auto-promotion in order. */
  datatype Pc =
    | FirstRead | CheckStale | Rotate | SecondRead
    | AutoFresh | AutoWriter | AutoStale | Promote | Fetch(id: int) | LastRead
    | Finished(answer: Answer<Shard>)

  datatype System = System(db: Db, clock: int, pc: Pc)

  datatype Action = Own | StoreCall(call: Call) | Advance(to: int)

  /** A call for one bucket, with the heartbeat timeout in force. */
  datatype Request = Request(b: string, timeout: nat)

  /** The heartbeats still fresh are those from here on. */
  function Cutoff(s: System, q: Request): int {
    s.clock - q.timeout
  }

  predicate HasFresh(s: System, q: Request) {
    Any(s.db.shards, FreshActiveIn(q.b, Cutoff(s, q)))
  }

  function ReadFresh(s: System, q: Request): Answer<Shard> {
    RowAt(s.db.shards, First(s.db.shards, FreshActiveIn(q.b, Cutoff(s, q))))
  }

  /** One statement of the call. */
  function Advanced(s: System, q: Request): System {
    match s.pc
    case FirstRead => s.(pc := if HasFresh(s, q) then Finished(ReadFresh(s, q)) else CheckStale)
    case CheckStale => s.(pc := if Any(s.db.shards, StaleActiveIn(q.b, Cutoff(s, q))) then Rotate else SecondRead)
    case Rotate =>
      var r := SealRotate(s.db, q.b, s.clock);
      var lost := r.outcome == NotFound || r.outcome == Conflict;
      s.(db := r.db, pc := if r.outcome == Done || lost then SecondRead else Finished(Err(r.outcome)))
    case SecondRead => s.(pc := if HasFresh(s, q) then Finished(ReadFresh(s, q)) else AutoFresh)
    case AutoFresh => s.(pc := if HasFresh(s, q) then LastRead else AutoWriter)
    case AutoWriter => s.(pc := if Any(s.db.shards, WriterIn(q.b)) then Finished(Err(NotFound)) else AutoStale)
    case AutoStale =>
      s.(pc := if Any(s.db.shards, StaleActiveIn(q.b, Cutoff(s, q))) then Finished(Err(NotFound)) else Promote)
    case Promote =>
      var p := PromoteStandby(s.db, q.b, s.clock);
      var next := if p.outcome == Done then Fetch(p.db.shards[p.promoted.value].id) else Finished(Err(p.outcome));
      s.(db := p.db, pc := next)
    case Fetch(id) => s.(pc := Finished(RowAt(s.db.shards, First(s.db.shards, WithId(id)))))
    case LastRead => s.(pc := Finished(ReadFresh(s, q)))
    case Finished(_) => s
  }

  predicate Enabled(s: System, a: Action) {
    match a
    case Own => !s.pc.Finished?
    case StoreCall(_) => true
    case Advance(to) => s.clock <= to
  }

  function Next(s: System, q: Request, a: Action): System {
    match a
    case Own => Advanced(s, q)
    case StoreCall(call) => s.(db := Exec(s.db, call, s.clock).db)
    case Advance(to) => s.(clock := to)
  }

  datatype Trace = Trace(request: Request, states: seq<System>, actions: seq<Action>) {
    ghost predicate Valid() {
      && |states| == |actions| + 1
      && Inv(states[0].db) && states[0].pc == FirstRead
      && forall i :: 0 <= i < |actions| ==>
           Enabled(states[i], actions[i]) && states[i + 1] == Next(states[i], request, actions[i])
    }
  }

  /** Between any two statements the clock may advance, and any call may run. */
  lemma AnyoneMayIntervene(s: System, q: Request, call: Call, to: int)
    ensures Enabled(s, StoreCall(call)) && Next(s, q, StoreCall(call)) == s.(db := Exec(s.db, call, s.clock).db)
    ensures s.clock <= to ==> Enabled(s, Advance(to)) && Next(s, q, Advance(to)) == s.(clock := to)
  {
  }

  // ---- the tables along the call ------------------------------------------------------------------------------

  /** The store call an action amounts to, if it writes. */
  function CallOf(s: System, q: Request, a: Action): Option<Call> {
    if a.StoreCall? then Some(a.call)
    else if a.Own? && s.pc.Rotate? then Some(CallSealRotate(q.b))
    else if a.Own? && s.pc.Promote? then Some(CallPromote(q.b))
    else None
  }

  lemma StoreStepOrNothing(s: System, q: Request, a: Action)
    ensures Next(s, q, a).db == if CallOf(s, q, a).Some? then Exec(s.db, CallOf(s, q, a).value, s.clock).db else s.db
  {
    hide SealRotate, PromoteStandby, First;
  }

  lemma RowsMove(s: System, q: Request, a: Action)
    requires Inv(s.db)
    ensures Inv(Next(s, q, a).db) && RowsStep(s.db.shards, Next(s, q, a).db.shards)
  {
    hide Inv, Exec, Next;
    StoreStepOrNothing(s, q, a);
    var call := CallOf(s, q, a);
    if call.Some? {
      StepRefines(s.db, call.value, s.clock);
    }
  }

  lemma {:induction false} AlwaysInvHere(t: Trace, i: nat)
    requires t.Valid() && i < |t.states|
    ensures Inv(t.states[i].db)
  {
    hide Next, Inv, Enabled;
    if i > 0 {
      AlwaysInvHere(t, i - 1);
      RowsMove(t.states[i - 1], t.request, t.actions[i - 1]);
    }
  }

  /** An assigned row keeps its identity and bucket through every action but the end of its own cleaning. */
  lemma KeepsBucket(s: System, q: Request, a: Action, k: nat)
    requires Inv(s.db) && k < |s.db.shards| && s.db.shards[k].bucket.Some?
    requires a != StoreCall(CallFinishCleaning(s.db.shards[k].uuid))
    ensures var rows := Next(s, q, a).db.shards;
            && k < |rows| && rows[k].id == s.db.shards[k].id && rows[k].uuid == s.db.shards[k].uuid
            && rows[k].bucket == s.db.shards[k].bucket
  {
    hide Inv, Exec, Next;
    RowsMove(s, q, a);
    assert RowStep(s.db.shards[k], Next(s, q, a).db.shards[k]);
    StoreStepOrNothing(s, q, a);
    var call := CallOf(s, q, a);
    if call.Some? {
      BucketLostOnlyByRecycling(s.db, call.value, s.clock, k);
    }
  }

  // ---- what a returned shard was -------------------------------------------------------------------------------

  /** The row is a fresh active of the bucket in this state. */
  predicate Serves(s: System, q: Request, r: Shard) {
    r in s.db.shards && Matches(FreshActiveIn(q.b, Cutoff(s, q)), r)
  }

  /** Step `p` of the call promoted row `k` into the bucket. */
  ghost predicate PromotedAt(t: Trace, p: nat, k: nat)
    requires t.Valid()
  {
    && p < |t.actions| && t.actions[p] == Own && t.states[p].pc.Promote?
    && k < |t.states[p + 1].db.shards| && t.states[p + 1].clock == t.states[p].clock
    && Matches(FreshActiveIn(t.request.b, Cutoff(t.states[p], t.request)), t.states[p + 1].db.shards[k])
  }

  ghost predicate NotRecycled(t: Trace, p: nat, m: nat, uuid: string) {
    forall j :: p < j < m && j < |t.actions| ==> t.actions[j] != StoreCall(CallFinishCleaning(uuid))
  }

  lemma PromoteStep(s: System, q: Request)
    requires s.pc.Promote? && Advanced(s, q).pc.Fetch?
    ensures var d := Advanced(s, q);
            exists k: nat :: k < |d.db.shards| && d.db.shards[k].id == d.pc.id
                             && Matches(FreshActiveIn(q.b, Cutoff(s, q)), d.db.shards[k])
  {
    var p := PromoteStandby(s.db, q.b, s.clock);
    assert PromotedTo(p, q.b, s.clock);
    hide PromoteStandby;
  }

  /** A call that is about to fetch the row `id` has promoted it. */
  lemma {:induction false} FetchHistory(t: Trace, i: nat) returns (p: nat, k: nat)
    requires t.Valid() && i < |t.states| && t.states[i].pc.Fetch?
    ensures p < i && PromotedAt(t, p, k) && t.states[p + 1].db.shards[k].id == t.states[i].pc.id
  {
    hide Inv, PromoteStandby, SealRotate, Exec;
    var s, a := t.states[i - 1], t.actions[i - 1];
    assert t.states[i] == Next(s, t.request, a);
    if a.Own? {
      PromoteStep(s, t.request);
      p := i - 1;
      k :| k < |t.states[i].db.shards| && t.states[i].db.shards[k].id == t.states[i].pc.id
           && Matches(FreshActiveIn(t.request.b, Cutoff(s, t.request)), t.states[i].db.shards[k]);
    } else {
      p, k := FetchHistory(t, i - 1);
    }
  }

  lemma {:induction false} StillAssigned(t: Trace, p: nat, k: nat, j: nat)
    requires t.Valid() && p < j < |t.states| && k < |t.states[p + 1].db.shards|
    requires t.states[p + 1].db.shards[k].bucket.Some? && NotRecycled(t, p, j, t.states[p + 1].db.shards[k].uuid)
    ensures k < |t.states[j].db.shards|
    ensures var r, s := t.states[p + 1].db.shards[k], t.states[j].db.shards[k];
            s.id == r.id && s.uuid == r.uuid && s.bucket == r.bucket
    decreases j
  {
    hide Inv, Next, Enabled;
    if j > p + 1 {
      StillAssigned(t, p, k, j - 1);
      AlwaysInvHere(t, j - 1);
      KeepsBucket(t.states[j - 1], t.request, t.actions[j - 1], k);
    }
  }

  /** Rows keep identity and position along the call. */
  lemma {:induction false} StillThere(t: Trace, p: nat, k: nat, j: nat)
    requires t.Valid() && p <= j < |t.states| && k < |t.states[p].db.shards|
    ensures k < |t.states[j].db.shards|
    ensures t.states[j].db.shards[k].id == t.states[p].db.shards[k].id
    ensures t.states[j].db.shards[k].uuid == t.states[p].db.shards[k].uuid
    decreases j
  {
    hide Inv, Next, Enabled;
    if j > p {
      StillThere(t, p, k, j - 1);
      AlwaysInvHere(t, j - 1);
      RowsMove(t.states[j - 1], t.request, t.actions[j - 1]);
      assert RowStep(t.states[j - 1].db.shards[k], t.states[j].db.shards[k]);
    }
  }

  /** The step at which the call produced its answer. */
  lemma {:induction false} AnswerStep(t: Trace, i: nat) returns (m: nat)
    requires t.Valid() && i < |t.states| && t.states[i].pc.Finished?
    ensures m < i && t.actions[m] == Own && !t.states[m].pc.Finished?
    ensures Advanced(t.states[m], t.request).pc == t.states[i].pc
  {
    hide Inv, Advanced;
    var s, a := t.states[i - 1], t.actions[i - 1];
    assert t.states[i] == Next(s, t.request, a) && Enabled(s, a);
    if a.Own? {
      m := i - 1;
    } else {
      m := AnswerStep(t, i - 1);
    }
  }

  /**
   However the calls interleave: a returned shard was a fresh active of the bucket when it was read, or the call had
   promoted it into the bucket itself and read its row afterwards; then it still has the bucket, unless its cleaning
   ended in between.
   */
  lemma AnswerIsEarned(t: Trace, i: nat, r: Shard) returns (m: nat, p: nat, k: nat)
    requires t.Valid() && i < |t.states| && t.states[i].pc == Finished(Ok(r))
    ensures m < i && t.actions[m] == Own && r in t.states[m].db.shards
    ensures Serves(t.states[m], t.request, r)
            || (p < m && PromotedAt(t, p, k) && t.states[p + 1].db.shards[k].id == r.id
                && (NotRecycled(t, p, m, r.uuid) ==> r.bucket == Some(t.request.b)))
  {
    hide Inv, Exec, SealRotate, PromoteStandby;
    m := AnswerStep(t, i);
    p, k := 0, 0;
    if t.states[m].pc.Fetch? {
      p, k := FetchHistory(t, m);
      AlwaysInvHere(t, m);
      StillThere(t, p + 1, k, m);
      FetchedRow(t.states[m].db, k, r);
      if NotRecycled(t, p, m, r.uuid) {
        StillAssigned(t, p, k, m);
      }
    }
    hide First, Advanced;
  }

  lemma FetchedRow(db: Db, k: nat, r: Shard)
    requires Inv(db) && k < |db.shards| && RowAt(db.shards, First(db.shards, WithId(db.shards[k].id))) == Ok(r)
    ensures r == db.shards[k]
  {
    FoundById(db, k);
  }

  lemma IdIsUnique(db: Db, i: nat, j: nat)
    requires Inv(db) && i < |db.shards| && j < |db.shards|
    ensures db.shards[i].id == db.shards[j].id <==> i == j
  {
    assert i < j ==> RowsApart(db.shards[i], db.shards[j]);
    assert j < i ==> RowsApart(db.shards[j], db.shards[i]);
  }

  // ---- what a failure means --------------------------------------------------------------------------------------

  /** Whoever got past the first read without an answer found no fresh active there. */
  lemma {:induction false} FirstReadMissed(t: Trace, i: nat) returns (m: nat)
    requires t.Valid() && i < |t.states| && t.states[i].pc != FirstRead
    requires t.states[i].pc.Finished? ==> t.states[i].pc.answer.Err?
    ensures m < i && t.actions[m] == Own && t.states[m].pc == FirstRead && !HasFresh(t.states[m], t.request)
  {
    hide Inv, Exec, SealRotate, PromoteStandby, First;
    var s, a := t.states[i - 1], t.actions[i - 1];
    assert t.states[i] == Next(s, t.request, a) && Enabled(s, a);
    if a.Own? && s.pc == FirstRead {
      m := i - 1;
    } else {
      m := FirstReadMissed(t, i - 1);
    }
  }

  /** Why the pool transaction can fail: no standby, or another active appeared since the checks. */
  lemma PromoteFails(db: Db, b: string, now: int)
    requires Inv(db) && PromoteStandby(db, b, now).outcome != Done
    ensures PromoteStandby(db, b, now).outcome == if Any(db.shards, StandbyPool) then UniqueViolation else NotFound
    ensures Any(db.shards, StandbyPool) ==> Any(db.shards, ActiveIn(b))
  {
    var k := First(db.shards, StandbyPool);
    if k.Some? {
      OneWriter.IndexOnActivation(db.shards, k.value, Assigned(ToActive(b, now), db.shards[k.value]), b);
    }
    hide Inv, First, OneActivePerBucket;
  }

  /**
   A call that fails with NotFound found no fresh active when it began; the only other failure is the unique index
   turning down its promotion because a rival activated a shard for the bucket between its checks and its promotion.
   */
  lemma FailureIsHonest(t: Trace, i: nat, e: Outcome) returns (m: nat, f: nat)
    requires t.Valid() && i < |t.states| && t.states[i].pc == Finished(Err(e))
    ensures m < i && t.actions[m] == Own && t.states[m].pc == FirstRead && !HasFresh(t.states[m], t.request)
    ensures m < f < i && t.actions[f] == Own
    ensures e == NotFound || e == UniqueViolation
    ensures e == UniqueViolation ==> t.states[f].pc == Promote && Any(t.states[f].db.shards, ActiveIn(t.request.b))
  {
    hide Inv, Exec, SealRotate, PromoteStandby, First;
    f := AnswerStep(t, i);
    AlwaysInvHere(t, f);
    var s := t.states[f];
    if s.pc == Promote {
      PromoteFails(s.db, t.request.b, s.clock);
    } else if s.pc == Rotate {
      RotationSucceeds(s.db, t.request.b, s.clock);
    }
    m := FirstReadMissed(t, f);
  }

  /** Sealing a bucket's active makes room for the standby promoted in the same transaction. */
  lemma RotationSucceeds(db: Db, b: string, now: int)
    requires Inv(db)
    ensures SealRotate(db, b, now).outcome == if Any(db.shards, ActiveIn(b)) then Done else NotFound
  {
    var i := First(db.shards, ActiveIn(b));
    if i.Some? {
      var rows := UpdateAt(db.shards, i.value, ToSealed);
      OneWriter.IndexWithoutActivation(db.shards, i.value, rows[i.value]);
      NoActiveLeft(db, b, i.value);
      var k := First(rows, StandbyPool);
      if k.Some? {
        OneWriter.IndexOnActivation(rows, k.value, Assigned(ToActive(b, now), rows[k.value]), b);
      }
    }
    hide Inv, First, OneActivePerBucket;
  }

  lemma NoActiveLeft(db: Db, b: string, i: nat)
    requires Inv(db) && i < |db.shards| && Matches(ActiveIn(b), db.shards[i])
    ensures !Any(UpdateAt(db.shards, i, ToSealed), ActiveIn(b))
  {
    var rows := UpdateAt(db.shards, i, ToSealed);
    forall j | 0 <= j < |rows|
      ensures !Matches(ActiveIn(b), rows[j])
    {
      if j != i && Matches(ActiveIn(b), db.shards[j]) {
        ActiveIsUnique(db, b, i, j);
      }
    }
    hide Inv, First;
  }

  // ---- alone, the call is Resolve.EnsureActive ----------------------------------------------------------------------

  function Rank(pc: Pc): nat {
    match pc
    case FirstRead => 10
    case CheckStale => 9
    case Rotate => 8
    case SecondRead => 7
    case AutoFresh => 6
    case AutoWriter => 5
    case AutoStale => 4
    case Promote => 3
    case Fetch(_) => 2
    case LastRead => 1
    case Finished(_) => 0
  }

  /** The call run to its end with nothing in between. */
  function Alone(s: System, q: Request): System
    decreases Rank(s.pc)
  {
    if s.pc.Finished? then s else Alone(Advanced(s, q), q)
  }

  function End(s: System, q: Request): Resolved<Shard> {
    var e := Alone(s, q);
    if e.pc.Finished? then Resolved(e.db, e.pc.answer) else Resolved(e.db, Err(NotFound))
  }

  lemma OneMore(s: System, q: Request)
    requires !s.pc.Finished?
    ensures End(s, q) == End(Advanced(s, q), q)
  {
  }

  lemma AtEnd(s: System, q: Request)
    requires s.pc.Finished?
    ensures End(s, q) == Resolved(s.db, s.pc.answer)
  {
  }

  lemma PromoteAlone(s: System, q: Request)
    requires Inv(s.db) && s.pc == Promote
    ensures var p := PromoteStandby(s.db, q.b, s.clock);
            End(s, q) == Resolved(p.db, if p.outcome == Done then Ok(p.db.shards[p.promoted.value]) else Err(p.outcome))
  {
    hide Alone, Inv, First, PromoteStandby, End;
    var d := Advanced(s, q);
    OneMore(s, q);
    if d.pc.Fetch? {
      var p := PromoteStandby(s.db, q.b, s.clock);
      StoreStepOrNothing(s, q, Own);
      RowsMove(s, q, Own);
      FoundById(p.db, p.promoted.value);
      OneMore(d, q);
      AtEnd(Advanced(d, q), q);
    } else {
      AtEnd(d, q);
    }
  }

  lemma FoundById(db: Db, k: nat)
    requires Inv(db) && k < |db.shards|
    ensures First(db.shards, WithId(db.shards[k].id)) == Some(k)
  {
    var f := First(db.shards, WithId(db.shards[k].id));
    assert Matches(WithId(db.shards[k].id), db.shards[k]);
    IdIsUnique(db, f.value, k);
  }

  lemma StaleIsWriter(rows: seq<Shard>, b: string, cutoff: int)
    ensures Any(rows, StaleActiveIn(b, cutoff)) ==> Any(rows, WriterIn(b))
  {
    var k := First(rows, StaleActiveIn(b, cutoff));
    if k.Some? {
      assert Matches(WriterIn(b), rows[k.value]);
    }
  }

  /** From the second read on. */
  lemma SecondHalfAlone(s: System, q: Request)
    requires Inv(s.db) && s.pc == SecondRead
    ensures !HasFresh(s, q) && AutoPromote(s.db, q.b, Cutoff(s, q), s.clock).outcome == Done ==>
              AutoPromote(s.db, q.b, Cutoff(s, q), s.clock).promoted.Some?
    ensures var p := AutoPromote(s.db, q.b, Cutoff(s, q), s.clock);
            End(s, q) ==
            if HasFresh(s, q) then Resolved(s.db, ReadFresh(s, q))
            else Resolved(p.db, if p.outcome == Done then Ok(p.db.shards[p.promoted.value]) else Err(p.outcome))
  {
    hide Alone, Inv, First, PromoteStandby, End;
    OneMore(s, q);
    if HasFresh(s, q) {
      AtEnd(Advanced(s, q), q);
    } else {
      var s1 := Advanced(s, q);
      OneMore(s1, q);
      var s2 := Advanced(s1, q);
      OneMore(s2, q);
      var s3 := Advanced(s2, q);
      if s3.pc.Finished? {
        AtEnd(s3, q);
      } else {
        StaleIsWriter(s.db.shards, q.b, Cutoff(s, q));
        OneMore(s3, q);
        PromoteAlone(Advanced(s3, q), q);
      }
    }
  }

  /** With nothing in between, the statements compute Resolve.EnsureActive. */
  lemma AloneIsEnsureActive(db: Db, b: string, timeout: nat, now: int)
    requires Inv(db)
    ensures End(System(db, now, FirstRead), Request(b, timeout)) == EnsureActive(db, b, now - timeout, now)
  {
    hide Alone, Inv, First, End, SealRotate, AutoPromote, Exec, RowsStep, Rank;
    var q, s := Request(b, timeout), System(db, now, FirstRead);
    OneMore(s, q);
    var s1 := Advanced(s, q);
    if s1.pc.Finished? {
      AtEnd(s1, q);
    } else {
      OneMore(s1, q);
      var s2 := Advanced(s1, q);
      if s2.pc == Rotate {
        RotationSucceeds(db, b, now);
        RowsMove(s2, q, Own);
        OneMore(s2, q);
        SecondHalfAlone(Advanced(s2, q), q);
      } else {
        SecondHalfAlone(s2, q);
      }
    }
  }

  /** A call that is never interrupted is a trace, and ends with the answer of Resolve.EnsureActive. */
  lemma AloneIsATrace(db: Db, b: string, timeout: nat, now: int) returns (t: Trace)
    requires Inv(db)
    ensures t.Valid() && (forall i :: 0 <= i < |t.actions| ==> t.actions[i] == Own)
    ensures var e := EnsureActive(db, b, now - timeout, now);
            t.states[0].db == db && t.states[|t.actions|] == System(e.db, now, Finished(e.answer))
  {
    hide Inv, EnsureActive, Advanced, Alone;
    var q, s := Request(b, timeout), System(db, now, FirstRead);
    t := RunOn(Trace(q, [s], []));
    AloneIsEnsureActive(db, b, timeout, now);
    AloneKeepsClock(s, q);
  }

  lemma RunOn(t: Trace) returns (r: Trace)
    requires t.Valid() && (forall i :: 0 <= i < |t.actions| ==> t.actions[i] == Own)
    ensures r.Valid() && (forall i :: 0 <= i < |r.actions| ==> r.actions[i] == Own)
    ensures r.states[0] == t.states[0] && r.states[|r.actions|] == Alone(t.states[|t.actions|], t.request)
    decreases Rank(t.states[|t.actions|].pc)
  {
    hide Inv;
    var s := t.states[|t.actions|];
    if s.pc.Finished? {
      r := t;
    } else {
      RankDrops(s, t.request);
      hide Advanced, Rank;
      var next := Trace(t.request, t.states + [Advanced(s, t.request)], t.actions + [Own]);
      forall i | 0 <= i < |next.actions|
        ensures Enabled(next.states[i], next.actions[i])
        ensures next.states[i + 1] == Next(next.states[i], t.request, next.actions[i])
      {
        assert i < |t.actions| ==> next.states[i] == t.states[i] && next.states[i + 1] == t.states[i + 1];
      }
      r := RunOn(next);
    }
  }

  lemma RankDrops(s: System, q: Request)
    requires !s.pc.Finished?
    ensures Rank(Advanced(s, q).pc) < Rank(s.pc)
  {
    hide PromoteStandby, SealRotate, First;
  }

  lemma {:induction false} AloneKeepsClock(s: System, q: Request)
    ensures Alone(s, q).clock == s.clock && Alone(s, q).pc.Finished?
    decreases Rank(s.pc)
  {
    hide PromoteStandby, SealRotate, First;
    if !s.pc.Finished? {
      RankDrops(s, q);
      AloneKeepsClock(Advanced(s, q), q);
    }
  }
}

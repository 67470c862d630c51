/**
 What one tick of the seal, health and retention supervisors does to the tables, as folds of store
 transactions over the lists the ticks read (internal/seal, internal/health, internal/retention).
 */
module Supervisors {
  import opened Common
  import opened Fsm
  import opened Table
  import opened Transactions
  import opened Lifecycle
  import opened OneWriter

  // ---- sealing one shard of a bucket ---------------------------------------------------------------

  /** Row `i` is sealed, at most one pool standby becomes the bucket's fresh active, nothing else moves. */
  predicate SealedAndReplaced(rows: seq<Shard>, next: seq<Shard>, i: nat, seal: Assign, b: string, now: int) {
    && |next| == |rows| && i < |rows| && next[i] == Assigned(seal, rows[i])
    && forall j :: 0 <= j < |rows| && j != i ==>
         next[j] == rows[j] || (Matches(StandbyPool, rows[j]) && next[j] == Assigned(ToActive(b, now), rows[j]))
  }

  lemma SealAndPromoteEffect(db: Db, i: nat, seal: Assign, b: string, now: int)
    requires Inv(db) && OneWriterPerBucket(db.shards) && i < |db.shards|
    requires Matches(WriterIn(b), db.shards[i]) && (seal.ToSealed? || seal.ToSealedAfterDrain?)
    ensures SealedAndReplaced(db.shards, SealAndPromote(db, i, seal, b, now).db.shards, i, seal, b, now)
  {
    SealAndPromoteStep(db, i, seal, b, now);
    hide Inv, OneWriterPerBucket, OneActivePerBucket;
  }

  lemma SealRotateEffect(db: Db, b: string, now: int, i: nat)
    requires Inv(db) && OneWriterPerBucket(db.shards) && i < |db.shards| && Matches(ActiveIn(b), db.shards[i])
    ensures SealedAndReplaced(db.shards, SealRotate(db, b, now).db.shards, i, ToSealed, b, now)
    ensures Inv(SealRotate(db, b, now).db) && OneWriterPerBucket(SealRotate(db, b, now).db.shards)
  {
    var k := First(db.shards, ActiveIn(b)).value;
    assert k == i;
    SealAndPromoteEffect(db, i, ToSealed, b, now);
    SealRotateRefines(db, b, now);
    SealRotateStep(db, b, now);
    hide Inv, OneWriterPerBucket, SealAndPromote, SealedAndReplaced;
  }

  lemma CompleteDrainSealEffect(db: Db, b: string, now: int, i: nat)
    requires Inv(db) && OneWriterPerBucket(db.shards) && i < |db.shards| && Matches(DrainingIn(b), db.shards[i])
    ensures SealedAndReplaced(db.shards, CompleteDrainSeal(db, b, now).db.shards, i, ToSealedAfterDrain, b, now)
    ensures Inv(CompleteDrainSeal(db, b, now).db) && OneWriterPerBucket(CompleteDrainSeal(db, b, now).db.shards)
  {
    var k := First(db.shards, DrainingIn(b)).value;
    assert k == i;
    SealAndPromoteEffect(db, i, ToSealedAfterDrain, b, now);
    CompleteDrainSealRefines(db, b, now);
    CompleteDrainSealStep(db, b, now);
    hide Inv, OneWriterPerBucket, SealAndPromote, SealedAndReplaced;
  }

  // ---- health tick -------------------------------------------------------------------------------------

  /** A data shard that is the active of some bucket. */
  predicate BucketedActive(r: Shard) {
    r.role == Data && r.state == Active && r.bucket.Some?
  }

  /** SealRotate for the bucket of each listed row. */
  function RotateAll(db: Db, list: seq<Shard>, now: int): Db {
    if |list| == 0 then db
    else
      var d := RotateAll(db, list[..|list| - 1], now);
      var r := list[|list| - 1];
      if r.bucket.None? then d else SealRotate(d, r.bucket.value, now).db
  }

  function HealthTick(db: Db, cutoff: int, now: int): Db {
    RotateAll(db, Select(db.shards, StaleActiveAnywhere(cutoff)), now)
  }

  /** `list` keeps the order of `rows` and never repeats a row. */
  predicate SubList(list: seq<Shard>, rows: seq<Shard>) {
    || (|list| == 0)
    || (|rows| > 0 && SubList(list, rows[..|rows| - 1]))
    || (|rows| > 0 && list[|list| - 1] == rows[|rows| - 1] && SubList(list[..|list| - 1], rows[..|rows| - 1]))
  }

  lemma {:induction false} SelectIsSubList(rows: seq<Shard>, w: Where)
    ensures SubList(Select(rows, w), rows)
  {
    if |rows| > 0 {
      SelectIsSubList(rows[..|rows| - 1], w);
      var rest := Select(rows[..|rows| - 1], w);
      assert (rest + [rows[|rows| - 1]])[..|rest|] == rest;
    }
  }

  /** Where the members of a sublist stand in the full list, in ascending order. */
  lemma {:induction false} SubListPositions(list: seq<Shard>, rows: seq<Shard>) returns (at: seq<nat>)
    requires SubList(list, rows)
    ensures |at| == |list|
    ensures forall i :: 0 <= i < |list| ==> at[i] < |rows| && rows[at[i]] == list[i]
    ensures forall i, j :: 0 <= i < j < |list| ==> at[i] < at[j]
    decreases |rows|
  {
    if |list| == 0 {
      at := [];
    } else if SubList(list, rows[..|rows| - 1]) {
      at := SubListPositions(list, rows[..|rows| - 1]);
    } else {
      at := SubListPositions(list[..|list| - 1], rows[..|rows| - 1]);
      at := at + [|rows| - 1];
    }
  }

  predicate BucketIn(b: Option<string>, list: seq<Shard>) {
    exists i :: 0 <= i < |list| && list[i].bucket == b
  }

  /** A pool standby that stayed, or became the fresh active of some bucket at `now`. */
  predicate MaybePromoted(r: Shard, s: Shard, now: int) {
    s == r || (s.bucket.Some? && s == Assigned(ToActive(s.bucket.value, now), r))
  }

  /** One row after the stale actives in `done` were rotated: stale actives, pool standbys, and all others. */
  predicate HealthRow(r: Shard, s: Shard, done: seq<Shard>, cutoff: int, now: int) {
    if BucketedActive(r) && !Fresh(r, cutoff) then s == if BucketIn(r.bucket, done) then Assigned(ToSealed, r) else r
    else if Matches(StandbyPool, r) then MaybePromoted(r, s, now)
    else s == r
  }

  predicate HealthProgress(db: Db, d: Db, done: seq<Shard>, cutoff: int, now: int) {
    && Inv(d) && OneWriterPerBucket(d.shards) && |d.shards| == |db.shards|
    && forall k :: 0 <= k < |db.shards| ==> HealthRow(db.shards[k], d.shards[k], done, cutoff, now)
  }

  /** Rotating one more stale active, whose bucket was not rotated yet. */
  lemma HealthStep(db: Db, d: Db, done: seq<Shard>, k: nat, cutoff: int, now: int)
    requires OneWriterPerBucket(db.shards) && HealthProgress(db, d, done, cutoff, now)
    requires k < |db.shards| && BucketedActive(db.shards[k]) && !Fresh(db.shards[k], cutoff)
    requires !BucketIn(db.shards[k].bucket, done)
    ensures HealthProgress(db, SealRotate(d, db.shards[k].bucket.value, now).db, done + [db.shards[k]], cutoff, now)
  {
    hide SealRotate, Inv, OneWriterPerBucket, Fresh;
    var b := db.shards[k].bucket.value;
    assert HealthRow(db.shards[k], d.shards[k], done, cutoff, now);
    SealRotateEffect(d, b, now, k);
    var next := SealRotate(d, b, now).db;
    forall j | 0 <= j < |db.shards|
      ensures HealthRow(db.shards[j], next.shards[j], done + [db.shards[k]], cutoff, now)
    {
      assert HealthRow(db.shards[j], d.shards[j], done, cutoff, now);
      BucketInSnoc(db.shards[j].bucket, done, db.shards[k]);
      NotRivals(db.shards, j, k);
    }
  }

  lemma NotRivals(rows: seq<Shard>, i: nat, j: nat)
    requires OneWriterPerBucket(rows) && i < |rows| && j < |rows|
    ensures i != j ==> !Rivals(rows[i], rows[j])
  {
  }

  lemma BucketInSnoc(b: Option<string>, list: seq<Shard>, r: Shard)
    ensures BucketIn(b, list + [r]) <==> BucketIn(b, list) || r.bucket == b
  {
    var longer := list + [r];
    if BucketIn(b, list) {
      var i :| 0 <= i < |list| && list[i].bucket == b;
      assert longer[i].bucket == b;
    }
    assert longer[|list|] == r;
  }

  lemma {:induction false} HealthFold(db: Db, list: seq<Shard>, at: seq<nat>, cutoff: int, now: int)
    requires Inv(db) && OneWriterPerBucket(db.shards)
    requires |at| == |list|
    requires forall i :: 0 <= i < |list| ==>
               at[i] < |db.shards| && db.shards[at[i]] == list[i] && BucketedActive(list[i]) && !Fresh(list[i], cutoff)
    requires forall i, j :: 0 <= i < j < |list| ==> at[i] < at[j]
    ensures HealthProgress(db, RotateAll(db, list, now), list, cutoff, now)
  {
    hide Inv, OneWriterPerBucket, HealthProgress, SealRotate, Fresh;
    if |list| == 0 {
      HealthStart(db, cutoff, now);
    } else {
      var n := |list| - 1;
      HealthFold(db, list[..n], at[..n], cutoff, now);
      forall i | 0 <= i < n
        ensures list[i].bucket != list[n].bucket
      {
        BucketsDiffer(db.shards, at[i], at[n]);
      }
      HealthStep(db, RotateAll(db, list[..n], now), list[..n], at[n], cutoff, now);
      assert list[..n] + [list[n]] == list;
    }
  }

  lemma HealthStart(db: Db, cutoff: int, now: int)
    requires Inv(db) && OneWriterPerBucket(db.shards)
    ensures HealthProgress(db, db, [], cutoff, now)
  {
  }

  lemma BucketsDiffer(rows: seq<Shard>, i: nat, j: nat)
    requires OneWriterPerBucket(rows) && i < |rows| && j < |rows|
    requires BucketedActive(rows[i]) && BucketedActive(rows[j])
    ensures rows[i].bucket == rows[j].bucket <==> i == j
  {
    assert i != j ==> !Rivals(rows[i], rows[j]);
  }

  /** A row that neither serves a bucket nor waits in the pool. */
  predicate Bystander(r: Shard) {
    !IsWriter(r) && !Matches(StandbyPool, r)
  }

  /** One row across a whole health tick. */
  predicate HealthOutcome(r: Shard, s: Shard, cutoff: int, now: int) {
    && (BucketedActive(s) ==> Fresh(s, cutoff))
    && (BucketedActive(r) ==> s == if Fresh(r, cutoff) then r else Assigned(ToSealed, r))
    && (Matches(StandbyPool, r) ==> MaybePromoted(r, s, now))
    && (Bystander(r) || r.state == Draining ==> s == r)
  }

  /**
   After a health tick no bucket's active is stale: every stale one is sealed, every fresh one is untouched,
   only pool standbys are promoted in their place, and no other row moves.
   */
  lemma HealthTickEffect(db: Db, cutoff: int, now: int)
    requires Inv(db) && OneWriterPerBucket(db.shards) && cutoff <= now
    ensures var d := HealthTick(db, cutoff, now);
            && Inv(d) && OneWriterPerBucket(d.shards) && |d.shards| == |db.shards|
            && forall k :: 0 <= k < |d.shards| ==> HealthOutcome(db.shards[k], d.shards[k], cutoff, now)
  {
    hide Inv, OneWriterPerBucket, Fresh, HealthRow, BucketedActive, HealthOutcome;
    var list := Select(db.shards, StaleActiveAnywhere(cutoff));
    SelectIsSubList(db.shards, StaleActiveAnywhere(cutoff));
    var at := SubListPositions(list, db.shards);
    StaleListed(db.shards, list, cutoff);
    HealthFold(db, list, at, cutoff, now);
    var d := HealthTick(db, cutoff, now);
    forall k | 0 <= k < |d.shards|
      ensures HealthOutcome(db.shards[k], d.shards[k], cutoff, now)
    {
      HealthRowDone(db.shards[k], d.shards[k], list, cutoff, now);
    }
  }

  /** The stale list holds exactly the stale bucketed actives. */
  lemma StaleListed(rows: seq<Shard>, list: seq<Shard>, cutoff: int)
    requires list == Select(rows, StaleActiveAnywhere(cutoff))
    ensures forall i :: 0 <= i < |list| ==> BucketedActive(list[i]) && !Fresh(list[i], cutoff)
    ensures forall k :: 0 <= k < |rows| && BucketedActive(rows[k]) && !Fresh(rows[k], cutoff) ==>
            BucketIn(rows[k].bucket, list)
  {
    assert forall i :: 0 <= i < |list| ==> list[i] in list;
    forall k | 0 <= k < |rows| && BucketedActive(rows[k]) && !Fresh(rows[k], cutoff)
      ensures BucketIn(rows[k].bucket, list)
    {
      assert rows[k] in list;
      var i :| 0 <= i < |list| && list[i] == rows[k];
    }
    hide Select;
  }

  lemma HealthRowDone(r: Shard, s: Shard, list: seq<Shard>, cutoff: int, now: int)
    requires HealthRow(r, s, list, cutoff, now) && cutoff <= now
    requires BucketedActive(r) && !Fresh(r, cutoff) ==> BucketIn(r.bucket, list)
    ensures HealthOutcome(r, s, cutoff, now)
  {
  }

  // ---- seal tick: finishing drains --------------------------------------------------------------------------

  /** The agent reported ready, or the drain timed out. */
  predicate DrainOver(r: Shard, wall: int, timeout: int) {
    r.drainReady || (r.drainStarted.Some? && wall - r.drainStarted.value >= timeout)
  }

  /** CompleteDrainSeal for each listed row whose drain is over. */
  function CompleteAll(db: Db, list: seq<Shard>, wall: int, timeout: int, now: int): Db {
    if |list| == 0 then db
    else
      var d := CompleteAll(db, list[..|list| - 1], wall, timeout, now);
      var r := list[|list| - 1];
      if r.bucket.Some? && DrainOver(r, wall, timeout) then CompleteDrainSeal(d, r.bucket.value, now).db else d
  }

  /** A data shard that drains for a bucket. */
  predicate BucketedDraining(r: Shard) {
    r.role == Data && r.state == Draining && r.bucket.Some?
  }

  /** One row after the drains in `done` were completed. */
  predicate DrainRow(r: Shard, s: Shard, done: seq<Shard>, wall: int, timeout: int, now: int) {
    if BucketedDraining(r) then
      s == if r in done && DrainOver(r, wall, timeout) then Assigned(ToSealedAfterDrain, r) else r
    else if Matches(StandbyPool, r) then MaybePromoted(r, s, now)
    else s == r
  }

  predicate DrainProgress(db: Db, d: Db, done: seq<Shard>, wall: int, timeout: int, now: int) {
    && Inv(d) && OneWriterPerBucket(d.shards) && |d.shards| == |db.shards|
    && forall k :: 0 <= k < |db.shards| ==> DrainRow(db.shards[k], d.shards[k], done, wall, timeout, now)
  }

  /** Completing one more drain that is over. */
  lemma CompleteStep(db: Db, d: Db, done: seq<Shard>, k: nat, wall: int, timeout: int, now: int)
    requires Inv(db) && DrainProgress(db, d, done, wall, timeout, now)
    requires k < |db.shards| && BucketedDraining(db.shards[k]) && DrainOver(db.shards[k], wall, timeout)
    requires db.shards[k] !in done
    ensures DrainProgress(db, CompleteDrainSeal(d, db.shards[k].bucket.value, now).db, done + [db.shards[k]], wall,
            timeout, now)
  {
    hide CompleteDrainSeal, Inv, OneWriterPerBucket, DrainOver;
    var b := db.shards[k].bucket.value;
    assert DrainRow(db.shards[k], d.shards[k], done, wall, timeout, now);
    CompleteDrainSealEffect(d, b, now, k);
    var next := CompleteDrainSeal(d, b, now).db;
    forall j | 0 <= j < |db.shards|
      ensures DrainRow(db.shards[j], next.shards[j], done + [db.shards[k]], wall, timeout, now)
    {
      assert DrainRow(db.shards[j], d.shards[j], done, wall, timeout, now);
      RowsDiffer(db, j, k);
    }
  }

  lemma RowsDiffer(db: Db, i: nat, j: nat)
    requires Inv(db) && i < |db.shards| && j < |db.shards|
    ensures db.shards[i] == db.shards[j] <==> i == j
  {
    assert i < j ==> RowsApart(db.shards[i], db.shards[j]);
    assert j < i ==> RowsApart(db.shards[j], db.shards[i]);
  }

  /** A listed row whose drain is not over is passed by. */
  lemma SkipStep(db: Db, d: Db, done: seq<Shard>, r: Shard, wall: int, timeout: int, now: int)
    requires DrainProgress(db, d, done, wall, timeout, now) && !(BucketedDraining(r) && DrainOver(r, wall, timeout))
    ensures DrainProgress(db, d, done + [r], wall, timeout, now)
  {
    hide Inv, OneWriterPerBucket, DrainOver;
    forall k | 0 <= k < |db.shards|
      ensures DrainRow(db.shards[k], d.shards[k], done + [r], wall, timeout, now)
    {
      assert DrainRow(db.shards[k], d.shards[k], done, wall, timeout, now);
    }
  }

  lemma DrainStart(db: Db, wall: int, timeout: int, now: int)
    requires Inv(db) && OneWriterPerBucket(db.shards)
    ensures DrainProgress(db, db, [], wall, timeout, now)
  {
  }

  /** Exactly the listed drains that are over end sealed. */
  lemma {:induction false} CompleteFold(db: Db, list: seq<Shard>, at: seq<nat>, wall: int, timeout: int, now: int)
    requires Inv(db) && OneWriterPerBucket(db.shards)
    requires |at| == |list|
    requires forall i :: 0 <= i < |list| ==>
               at[i] < |db.shards| && db.shards[at[i]] == list[i] && list[i].role == Data && list[i].state == Draining
    requires forall i, j :: 0 <= i < j < |list| ==> at[i] < at[j]
    ensures DrainProgress(db, CompleteAll(db, list, wall, timeout, now), list, wall, timeout, now)
  {
    hide Inv, OneWriterPerBucket, DrainProgress, CompleteDrainSeal, DrainOver;
    if |list| == 0 {
      DrainStart(db, wall, timeout, now);
    } else {
      var n := |list| - 1;
      var d := CompleteAll(db, list[..n], wall, timeout, now);
      CompleteFold(db, list[..n], at[..n], wall, timeout, now);
      forall i | 0 <= i < n
        ensures list[i] != list[n]
      {
        RowsDiffer(db, at[i], at[n]);
      }
      if list[n].bucket.Some? && DrainOver(list[n], wall, timeout) {
        CompleteStep(db, d, list[..n], at[n], wall, timeout, now);
      } else {
        SkipStep(db, d, list[..n], list[n], wall, timeout, now);
      }
      assert list[..n] + [list[n]] == list;
    }
  }

  // ---- seal tick: starting drains -----------------------------------------------------------------------------

  function Limit(r: Shard, defaultMax: int): int {
    if r.maxBytes.Some? then r.maxBytes.value else defaultMax
  }

  predicate Full(r: Shard, defaultMax: int) {
    r.reportedBytes >= Limit(r, defaultMax)
  }

  /** ShardsNeedingSeal: the full rows of a list. */
  function KeepFull(list: seq<Shard>, defaultMax: int): (out: seq<Shard>)
    ensures forall r :: r in out <==> r in list && Full(r, defaultMax)
  {
    if |list| == 0 then []
    else
      var rest := KeepFull(list[..|list| - 1], defaultMax);
      assert list == list[..|list| - 1] + [list[|list| - 1]];
      if Full(list[|list| - 1], defaultMax) then rest + [list[|list| - 1]] else rest
  }

  /** BeginDrain for the bucket of each listed row. */
  function DrainAll(db: Db, list: seq<Shard>, now: int): Db {
    if |list| == 0 then db
    else
      var d := DrainAll(db, list[..|list| - 1], now);
      var r := list[|list| - 1];
      if r.bucket.None? then d else BeginDrain(d, r.bucket.value, now).db
  }

  /** Exactly the actives of the listed buckets drain; every other row is untouched. */
  lemma {:induction false} DrainFold(db: Db, list: seq<Shard>, now: int)
    ensures var d := DrainAll(db, list, now);
            && |d.shards| == |db.shards|
            && forall k :: 0 <= k < |db.shards| ==>
                 d.shards[k] == if BucketedActive(db.shards[k]) && BucketIn(db.shards[k].bucket, list)
                                then Assigned(ToDraining(now), db.shards[k]) else db.shards[k]
  {
    if |list| > 0 {
      var n := |list| - 1;
      var r := list[n];
      DrainFold(db, list[..n], now);
      var d := DrainAll(db, list[..n], now);
      assert list == list[..n] + [r];
      forall k | 0 <= k < |db.shards|
        ensures DrainAll(db, list, now).shards[k]
                == if BucketedActive(db.shards[k]) && BucketIn(db.shards[k].bucket, list)
                   then Assigned(ToDraining(now), db.shards[k]) else db.shards[k]
      {
        BucketInSnoc(db.shards[k].bucket, list[..n], r);
        if r.bucket.Some? && !Any(d.shards, ActiveIn(r.bucket.value)) {
          assert !Matches(ActiveIn(r.bucket.value), d.shards[k]);
        }
      }
    }
  }

  lemma {:induction false} DrainFoldKeeps(db: Db, list: seq<Shard>, now: int)
    requires Inv(db) && OneWriterPerBucket(db.shards)
    ensures Inv(DrainAll(db, list, now)) && OneWriterPerBucket(DrainAll(db, list, now).shards)
  {
    hide Inv, OneWriterPerBucket, Exec;
    if |list| > 0 {
      var n := |list| - 1;
      DrainFoldKeeps(db, list[..n], now);
      if list[n].bucket.Some? {
        DrainStepKeeps(DrainAll(db, list[..n], now), list[n].bucket.value, now);
      }
    }
  }

  lemma DrainStepKeeps(db: Db, b: string, now: int)
    requires Inv(db) && OneWriterPerBucket(db.shards)
    ensures Inv(BeginDrain(db, b, now).db) && OneWriterPerBucket(BeginDrain(db, b, now).db.shards)
  {
    hide Inv, OneWriterPerBucket, BeginDrain;
    StepRefines(db, CallBeginDrain(b), now);
    OneWriterStep(db, CallBeginDrain(b), now);
  }

  function SealTick(db: Db, defaultMax: int, wall: int, timeout: int, now: int): Db {
    var d := CompleteAll(db, Select(db.shards, DrainingAnywhere), wall, timeout, now);
    DrainAll(d, KeepFull(Select(d.shards, ActiveAnywhere), defaultMax), now)
  }

  /** Under one writer per bucket, draining the buckets of the full actives drains exactly the full actives. */
  lemma FullActivesDrain(db: Db, defaultMax: int, now: int, k: nat)
    requires OneWriterPerBucket(db.shards) && k < |db.shards|
    ensures var d := DrainAll(db, KeepFull(Select(db.shards, ActiveAnywhere), defaultMax), now);
            && |d.shards| == |db.shards|
            && d.shards[k] == if BucketedActive(db.shards[k]) && Full(db.shards[k], defaultMax)
                              then Assigned(ToDraining(now), db.shards[k]) else db.shards[k]
  {
    var list := KeepFull(Select(db.shards, ActiveAnywhere), defaultMax);
    DrainFold(db, list, now);
    if BucketedActive(db.shards[k]) {
      FullIsListed(db.shards, list, defaultMax, k);
    }
    hide DrainAll, KeepFull, Select, Full;
  }

  lemma FullIsListed(rows: seq<Shard>, list: seq<Shard>, defaultMax: int, k: nat)
    requires OneWriterPerBucket(rows) && k < |rows| && BucketedActive(rows[k])
    requires list == KeepFull(Select(rows, ActiveAnywhere), defaultMax)
    ensures BucketIn(rows[k].bucket, list) <==> Full(rows[k], defaultMax)
  {
    if Full(rows[k], defaultMax) {
      assert rows[k] in list;
      var i :| 0 <= i < |list| && list[i] == rows[k];
    }
    if BucketIn(rows[k].bucket, list) {
      var i :| 0 <= i < |list| && list[i].bucket == rows[k].bucket;
      assert list[i] in list;
      assert list[i] in rows && list[i].role == Data && list[i].state == Active;
      var j :| 0 <= j < |rows| && rows[j] == list[i];
      BucketsDiffer(rows, j, k);
    }
  }

  /**
   A pool row was promoted by a finished drain and, over its limit by an old report, set draining in the same tick.
   */
  predicate PromotedFull(r: Shard, s: Shard, defaultMax: int, now: int) {
    s.bucket.Some? && Full(r, defaultMax) && s == Assigned(ToDraining(now), Assigned(ToActive(s.bucket.value, now), r))
  }

  /** One row across a whole seal tick. */
  predicate SealOutcome(r: Shard, s: Shard, defaultMax: int, wall: int, timeout: int, now: int) {
    && (BucketedActive(s) ==> !Full(s, defaultMax))
    && (BucketedActive(r) ==> s == if Full(r, defaultMax) then Assigned(ToDraining(now), r) else r)
    && (BucketedDraining(r) ==> s == if DrainOver(r, wall, timeout) then Assigned(ToSealedAfterDrain, r) else r)
    && (Matches(StandbyPool, r) ==> MaybePromoted(r, s, now) || PromotedFull(r, s, defaultMax, now))
    && (Bystander(r) ==> s == r)
  }

  lemma SealOutcomeRow(r: Shard, mid: Shard, s: Shard, list: seq<Shard>, defaultMax: int, wall: int, timeout: int,
      now: int)
    requires DrainRow(r, mid, list, wall, timeout, now) && (BucketedDraining(r) ==> r in list)
    requires s == if BucketedActive(mid) && Full(mid, defaultMax) then Assigned(ToDraining(now), mid) else mid
    ensures SealOutcome(r, s, defaultMax, wall, timeout, now)
  {
  }

  /**
   After a seal tick no bucket's active is at or over its limit. Of the actives exactly the full ones drain, exactly the
   drains that were over when the tick began are sealed, a pool standby is at most promoted (and drains at once if an
   old report puts it over its limit), and no other row moves.
   */
  lemma SealTickEffect(db: Db, defaultMax: int, wall: int, timeout: int, now: int)
    requires Inv(db) && OneWriterPerBucket(db.shards)
    ensures var d := SealTick(db, defaultMax, wall, timeout, now);
            && Inv(d) && OneWriterPerBucket(d.shards) && |d.shards| == |db.shards|
            && forall k :: 0 <= k < |d.shards| ==>
                 SealOutcome(db.shards[k], d.shards[k], defaultMax, wall, timeout, now)
  {
    hide Inv, OneWriterPerBucket, CompleteAll, DrainAll, KeepFull, DrainRow, SealOutcome, Full, DrainOver;
    var drains := Select(db.shards, DrainingAnywhere);
    SelectIsSubList(db.shards, DrainingAnywhere);
    var at := SubListPositions(drains, db.shards);
    DrainsListed(db.shards, drains);
    hide Select;
    CompleteFold(db, drains, at, wall, timeout, now);
    var mid := CompleteAll(db, drains, wall, timeout, now);
    var d := SealTick(db, defaultMax, wall, timeout, now);
    DrainFoldKeeps(mid, KeepFull(Select(mid.shards, ActiveAnywhere), defaultMax), now);
    SameLength(mid, KeepFull(Select(mid.shards, ActiveAnywhere), defaultMax), now);
    forall k | 0 <= k < |db.shards|
      ensures SealOutcome(db.shards[k], d.shards[k], defaultMax, wall, timeout, now)
    {
      FullActivesDrain(mid, defaultMax, now, k);
      SealOutcomeRow(db.shards[k], mid.shards[k], d.shards[k], drains, defaultMax, wall, timeout, now);
    }
  }

  lemma SameLength(db: Db, list: seq<Shard>, now: int)
    ensures |DrainAll(db, list, now).shards| == |db.shards|
  {
    DrainFold(db, list, now);
  }

  lemma DrainsListed(rows: seq<Shard>, list: seq<Shard>)
    requires list == Select(rows, DrainingAnywhere)
    ensures forall i :: 0 <= i < |list| ==> list[i].role == Data && list[i].state == Draining
    ensures forall k :: 0 <= k < |rows| && BucketedDraining(rows[k]) ==> rows[k] in list
  {
    hide Select;
    forall i | 0 <= i < |list|
      ensures list[i].role == Data && list[i].state == Draining
    {
      SelectedMatches(rows, DrainingAnywhere, i);
    }
    forall k | 0 <= k < |rows| && BucketedDraining(rows[k])
      ensures rows[k] in list
    {
      MatchingIsSelected(rows, DrainingAnywhere, k);
    }
  }

  lemma SelectedMatches(rows: seq<Shard>, w: Where, i: nat)
    requires i < |Select(rows, w)|
    ensures Matches(w, Select(rows, w)[i])
  {
    assert Select(rows, w)[i] in Select(rows, w);
  }

  lemma MatchingIsSelected(rows: seq<Shard>, w: Where, k: nat)
    requires k < |rows| && Matches(w, rows[k])
    ensures rows[k] in Select(rows, w)
  {
  }

  // ---- retention tick ---------------------------------------------------------------------------------------------

  /** MarkBucketCleaning for each listed bucket that has no writer. */
  function CleanAll(db: Db, evict: seq<string>): Db {
    if |evict| == 0 then db
    else
      var d := CleanAll(db, evict[..|evict| - 1]);
      var b := evict[|evict| - 1];
      if Any(d.shards, WriterIn(b)) then d else MarkBucketCleaning(d, b).db
  }

  /** A sealed data shard of a listed bucket without writers. */
  predicate Cleanable(db: Db, r: Shard, evict: seq<string>) {
    r.role == Data && r.state == Sealed && r.bucket.Some? && r.bucket.value in evict
        && !Any(db.shards, WriterIn(r.bucket.value))
  }

  /** A retention tick moves exactly the cleanable rows, each from sealed to cleaning, and no other row. */
  lemma {:induction false} CleanFold(db: Db, evict: seq<string>)
    ensures var d := CleanAll(db, evict);
            && |d.shards| == |db.shards|
            && (forall k :: 0 <= k < |db.shards| ==>
                  d.shards[k] == if Cleanable(db, db.shards[k], evict) then Assigned(ToCleaning, db.shards[k])
                      else db.shards[k])
            && (forall b :: Any(d.shards, WriterIn(b)) <==> Any(db.shards, WriterIn(b)))
  {
    if |evict| > 0 {
      hide Cleanable, Any, MarkBucketCleaning, Assigned;
      var n := |evict| - 1;
      CleanFold(db, evict[..n]);
      var d := CleanAll(db, evict[..n]);
      assert evict == evict[..n] + [evict[n]];
      CleanStep(db, d, evict[..n], evict[n]);
    }
  }

  lemma CleanStep(db: Db, d: Db, done: seq<string>, b: string)
    requires |d.shards| == |db.shards|
    requires forall k :: 0 <= k < |db.shards| ==>
               d.shards[k] == if Cleanable(db, db.shards[k], done) then Assigned(ToCleaning, db.shards[k])
                   else db.shards[k]
    requires forall c :: Any(d.shards, WriterIn(c)) <==> Any(db.shards, WriterIn(c))
    ensures var e := if Any(d.shards, WriterIn(b)) then d else MarkBucketCleaning(d, b).db;
            && |e.shards| == |db.shards|
            && (forall k :: 0 <= k < |db.shards| ==>
                  e.shards[k] == if Cleanable(db, db.shards[k], done + [b]) then Assigned(ToCleaning, db.shards[k])
                      else db.shards[k])
            && (forall c :: Any(e.shards, WriterIn(c)) <==> Any(db.shards, WriterIn(c)))
  {
    var e := if Any(d.shards, WriterIn(b)) then d else MarkBucketCleaning(d, b).db;
    forall k | 0 <= k < |db.shards|
      ensures e.shards[k] == if Cleanable(db, db.shards[k], done + [b]) then Assigned(ToCleaning, db.shards[k])
              else db.shards[k]
      ensures forall c :: Matches(WriterIn(c), e.shards[k]) <==> Matches(WriterIn(c), d.shards[k])
    {
      if !Any(d.shards, SealedIn(b)) {
        assert !Matches(SealedIn(b), d.shards[k]);
      }
    }
    SameWriters(d.shards, e.shards);
  }

  lemma SameWriters(rows: seq<Shard>, next: seq<Shard>)
    requires |rows| == |next|
    requires forall k :: 0 <= k < |rows| ==>
               forall c :: Matches(WriterIn(c), next[k]) <==> Matches(WriterIn(c), rows[k])
    ensures forall c :: Any(next, WriterIn(c)) <==> Any(rows, WriterIn(c))
  {
    forall c
      ensures Any(next, WriterIn(c)) <==> Any(rows, WriterIn(c))
    {
      var i, j := First(rows, WriterIn(c)), First(next, WriterIn(c));
      if i.Some? { assert Matches(WriterIn(c), next[i.value]); }
      if j.Some? { assert Matches(WriterIn(c), rows[j.value]); }
    }
  }
}

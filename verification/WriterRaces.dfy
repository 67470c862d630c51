/** Reachable states with two writers in one bucket: why auto-promotion and manual activation need their guards. */
module WriterRaces {
  import opened Common
  import opened Fsm
  import opened Table
  import opened Transactions
  import opened OneWriter

  function Row(id: int, uuid: string, bucket: Option<string>, state: State, drainStarted: Option<int>, version: int)
    : Shard
  {
    Shard(id, uuid, Data, bucket, state, "d", None, 0, None, Some(0), drainStarted, false, version)
  }

  function Pair(r: Shard, s: Shard): Db {
    Db([r, s], None, 3)
  }

  const U1 := Row(1, "u1", None, Standby, None, 1)
  const U2 := Row(2, "u2", None, Standby, None, 1)

  function Register(uuid: string): Call {
    CallRegister(uuid, Data, "d", "", Standby)
  }

  lemma RegisterNew(db: Db, uuid: string)
    requires !Any(db.shards, WithUuid(uuid))
    ensures Exec(db, Register(uuid), 0).db
            == Db(db.shards + [Row(db.nextId, uuid, None, Standby, None, 1)], Bump(db.config), db.nextId + 1)
  {
  }

  lemma OtherUuid(r: Shard, uuid: string)
    requires r.uuid != uuid
    ensures !Any([r], WithUuid(uuid)) && !Any([], WithUuid(uuid))
  {
  }

  /** The two-standby table below is what two registrations leave behind. */
  lemma TwoRegistered()
    ensures Exec(Exec(EMPTY, Register("u1"), 0).db, Register("u2"), 0).db == Pair(U1, U2)
  {
    hide Exec, First, Any;
    OtherUuid(U2, "u1");
    RegisterNew(EMPTY, "u1");
    assert [] + [U1] == [U1];
    OtherUuid(U1, "u2");
    RegisterNew(Db([U1], None, 2), "u2");
    assert [U1] + [U2] == [U1, U2];
  }

  lemma PairIndex(r: Shard, s: Shard)
    ensures OneActivePerBucket([r, s]) <==> !SameActiveBucket(r, s)
  {
    var rows := [r, s];
    assert SameActiveBucket(rows[0], rows[1]) == SameActiveBucket(r, s);
  }

  lemma FirstIsFirst(r: Shard, s: Shard, w: Where)
    requires Matches(w, r)
    ensures First([r, s], w) == Some(0)
  {
    assert Matches(w, [r, s][0]);
  }

  lemma FirstIsSecond(r: Shard, s: Shard, w: Where)
    requires !Matches(w, r) && Matches(w, s)
    ensures First([r, s], w) == Some(1)
  {
    assert Matches(w, [r, s][1]) && !Matches(w, [r, s][0]);
  }

  /**
   Auto-promotion as separate transactions: two callers both find the bucket free; the first promotes and its
   shard starts draining; the second then promotes too. The unique index does not object, since one is draining.
   */
  lemma AutoPromotionRace()
    ensures var free := Pair(U1, U2);
            var s1 := Exec(free, CallPromote("b"), 0).db;
            var s2 := Exec(s1, CallBeginDrain("b"), 0).db;
            var s3 := Exec(s2, CallPromote("b"), 0).db;
            && !Any(free.shards, WriterIn("b"))
            && Breaks(s2, CallPromote("b"))
            && OneActivePerBucket(s3.shards) && !OneWriterPerBucket(s3.shards)
  {
    var free := Pair(U1, U2);
    FirstIsFirst(U1, U2, StandbyPool);
    var a1 := Row(1, "u1", Some("b"), Active, None, 2);
    var s1 := Exec(free, CallPromote("b"), 0).db;
    assert s1 == Pair(a1, U2);
    FirstIsFirst(a1, U2, ActiveIn("b"));
    var d1 := Row(1, "u1", Some("b"), Draining, Some(0), 3);
    var s2 := Exec(s1, CallBeginDrain("b"), 0).db;
    assert s2.shards == [d1, U2];
    FirstIsSecond(d1, U2, StandbyPool);
    FirstIsFirst(d1, U2, DrainingIn("b"));
    var a2 := Row(2, "u2", Some("b"), Active, None, 2);
    var s3 := Exec(s2, CallPromote("b"), 0).db;
    assert s3.shards == [d1, a2];
    assert Rivals(s3.shards[0], s3.shards[1]);
  }

  const RECYCLED := Row(1, "u1", Some("b"), Standby, None, 5)
  const SUCCESSOR := Row(2, "u2", Some("b"), Active, None, 2)

  /** A manual patch from cleaning to standby leaves the shard its bucket. */
  lemma PatchedStandbyKeepsBucket()
    ensures var s1 := Exec(Pair(U1, U2), CallPromote("b"), 0).db;
            var s2 := Exec(s1, CallSealRotate("b"), 0).db;
            var s3 := Exec(s2, CallMarkCleaning("b"), 0).db;
            var s4 := Exec(s3, CallPatchState(1, Standby), 0).db;
            s4 == Pair(RECYCLED, SUCCESSOR)
  {
    hide First, OneActivePerBucket;
    FirstIsFirst(U1, U2, StandbyPool);
    var a1 := Row(1, "u1", Some("b"), Active, None, 2);
    PairIndex(a1, U2);
    assert UpdateAt([U1, U2], 0, ToActive("b", 0)) == [a1, U2];
    var s1 := Exec(Pair(U1, U2), CallPromote("b"), 0).db;
    assert s1 == Pair(a1, U2);
    var e1 := Row(1, "u1", Some("b"), Sealed, None, 3);
    FirstIsFirst(a1, U2, ActiveIn("b"));
    FirstIsSecond(e1, U2, StandbyPool);
    PairIndex(e1, SUCCESSOR);
    assert UpdateAt([a1, U2], 0, ToSealed) == [e1, U2];
    assert UpdateAt([e1, U2], 1, ToActive("b", 0)) == [e1, SUCCESSOR];
    var s2 := Exec(s1, CallSealRotate("b"), 0).db;
    assert s2.shards == [e1, SUCCESSOR];
    FirstIsFirst(e1, SUCCESSOR, SealedIn("b"));
    var c1 := Row(1, "u1", Some("b"), Cleaning, None, 4);
    var s3 := Exec(s2, CallMarkCleaning("b"), 0).db;
    assert s3.shards == [c1, SUCCESSOR];
    FirstIsFirst(c1, SUCCESSOR, WithId(1));
    PairIndex(RECYCLED, SUCCESSOR);
    assert UpdateAt([c1, SUCCESSOR], 0, SetState(Standby)) == [RECYCLED, SUCCESSOR];
    var s4 := Exec(s3, CallPatchState(1, Standby), 0).db;
    assert s4.shards == [RECYCLED, SUCCESSOR];
  }

  const DRAINING := Row(2, "u2", Some("b"), Draining, Some(0), 3)

  lemma SuccessorDrains()
    ensures Exec(Pair(RECYCLED, SUCCESSOR), CallBeginDrain("b"), 0).db == Pair(RECYCLED, DRAINING)
  {
    hide First;
    FirstIsSecond(RECYCLED, SUCCESSOR, ActiveIn("b"));
    assert Update([RECYCLED, SUCCESSOR], ActiveIn("b"), ToDraining(0)) == [RECYCLED, DRAINING];
  }

  /** Patching that standby active while its successor drains gives the bucket a second writer. */
  lemma ManualActivationRace()
    ensures var s := Exec(Pair(RECYCLED, DRAINING), CallPatchState(1, Active), 0).db;
            && Breaks(Pair(RECYCLED, DRAINING), CallPatchState(1, Active))
            && OneActivePerBucket(s.shards) && !OneWriterPerBucket(s.shards)
  {
    hide First, OneActivePerBucket;
    FirstIsFirst(RECYCLED, DRAINING, WithId(1));
    FirstIsSecond(RECYCLED, DRAINING, DrainingIn("b"));
    var b1 := Row(1, "u1", Some("b"), Active, None, 6);
    PairIndex(b1, DRAINING);
    assert UpdateAt([RECYCLED, DRAINING], 0, SetState(Active)) == [b1, DRAINING];
    var s := Exec(Pair(RECYCLED, DRAINING), CallPatchState(1, Active), 0).db;
    assert Rivals(s.shards[0], s.shards[1]);
  }
}

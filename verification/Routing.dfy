/** internal/bucket/routing.go: the writable window, eviction, and bootstrap validation. */
module Routing {
  import opened Common
  import opened Bucket
  import opened TimeBuckets

  datatype RouteKind = RouteBucket | RouteError

  datatype RouteReason = NoReason | FutureDisallowed | FutureTooFar | BucketEvicted | InvalidShardKey

  datatype WriteRoute = WriteRoute(kind: RouteKind, bucketId: string, reason: RouteReason)

  function ToBucket(bucketId: string): WriteRoute {
    WriteRoute(RouteBucket, bucketId, NoReason)
  }

  function ToError(reason: RouteReason): WriteRoute {
    WriteRoute(RouteError, ERROR_BUCKET_ID, reason)
  }

  function CurrentIndex(spec: Spec, now: int): Option<int> {
    match CurrentID(spec, now)
    case None => None
    case Some(id) => Index(spec, id)
  }

  /** Where a time key goes, given the index of its bucket and the current one. */
  function Place(target: string, index: Option<int>, current: Option<int>, depth: int, maxFuture: int)
    : Option<WriteRoute>
  {
    if index.None? then Some(ToError(InvalidShardKey))
    else if current.None? then None
    else if index.value < current.value - depth + 1 then Some(ToError(BucketEvicted))
    else if index.value <= current.value then Some(ToBucket(target))
    else if maxFuture == 0 then Some(ToError(FutureDisallowed))
    else if index.value <= current.value + maxFuture then Some(ToBucket(target))
    else Some(ToError(FutureTooFar))
  }

  /** Bucket or error routing of a key; None where the source returns an error. ClassifyRead is the same. */
  function ClassifyWrite(lib: Lib, spec: Spec, now: int, key: Key, depth: int, maxFuture: int): Option<WriteRoute>
    requires ValidSpec(spec)
  {
    match ID(lib, spec, key)
    case None => Some(ToError(InvalidShardKey))
    case Some(target) =>
      if spec.TimeAxis? then Place(target, Index(spec, target), CurrentIndex(spec, now), depth, maxFuture)
      else Some(ToBucket(target))
  }

  /** Indices that accept writes. */
  predicate InWindow(i: int, cur: int, depth: int, maxFuture: int) {
    cur - depth < i && (i <= cur || i <= cur + maxFuture)
  }

  lemma PlaceInWindow(target: string, index: Option<int>, cur: int, depth: int, maxFuture: int, b: string)
    ensures Place(target, index, Some(cur), depth, maxFuture) == Some(ToBucket(b))
            <==> target == b && index.Some? && InWindow(index.value, cur, depth, maxFuture)
  {
  }

  /** A time key is written to its own bucket exactly when that bucket is inside the window. */
  lemma WritesStayInWindow(lib: Lib, unit: TimeUnit, now: int, key: Key, depth: int, maxFuture: int, b: string)
    ensures ClassifyWrite(lib, TimeAxis(unit), now, key, depth, maxFuture) == Some(ToBucket(b)) <==>
            && ID(lib, TimeAxis(unit), key) == Some(b)
            && Index(TimeAxis(unit), b).Some? && CurrentIndex(TimeAxis(unit), now).Some?
            && InWindow(Index(TimeAxis(unit), b).value, CurrentIndex(TimeAxis(unit), now).value, depth, maxFuture)
  {
    var target := ID(lib, TimeAxis(unit), key);
    if target.Some? && CurrentIndex(TimeAxis(unit), now).Some? {
      var cur := CurrentIndex(TimeAxis(unit), now).value;
      PlaceInWindow(target.value, Index(TimeAxis(unit), target.value), cur, depth, maxFuture, b);
    }
  }

  lemma CurrentIndexIsPeriod(unit: TimeUnit, now: int)
    requires InInt64(now)
    ensures CurrentIndex(TimeAxis(unit), now) == if Readable(unit, now) then Some(Period(unit, now)) else None
  {
    IndexOfTimeID(unit, now);
  }

  // ---- eviction ---------------------------------------------------------------------

  /** A bucket the retention supervisor may clean at time `now`. */
  predicate Evicted(spec: Spec, now: int, depth: int, b: string) {
    && b != "" && b != ERROR_BUCKET_ID
    && Index(spec, b).Some? && CurrentIndex(spec, now).Some?
    && Index(spec, b).value < CurrentIndex(spec, now).value - depth + 1
  }

  function KeepEvicted(spec: Spec, now: int, depth: int, known: seq<string>): (out: seq<string>)
    ensures forall b :: b in out <==> b in known && Evicted(spec, now, depth, b)
  {
    if |known| == 0 then []
    else
      var b := known[|known| - 1];
      var rest := KeepEvicted(spec, now, depth, known[..|known| - 1]);
      assert known == known[..|known| - 1] + [b];
      if Evicted(spec, now, depth, b) then rest + [b] else rest
  }

  /** The known buckets that retention should clean, in the order given; None where the source errors. */
  method BucketsOutsideRetention(spec: Spec, now: int, depth: int, known: seq<string>)
    returns (out: Option<seq<string>>)
    ensures !spec.TimeAxis? ==> out == Some([])
    ensures spec.TimeAxis? ==>
              out == if CurrentIndex(spec, now).Some? then Some(KeepEvicted(spec, now, depth, known)) else None
  {
    if !spec.TimeAxis? {
      return Some([]);
    }
    var current := CurrentIndex(spec, now);
    if current.None? {
      return None;
    }
    var oldest := current.value - depth + 1;
    var kept: seq<string> := [];
    for k := 0 to |known|
      invariant kept == KeepEvicted(spec, now, depth, known[..k])
    {
      var b := known[k];
      assert known[..k + 1][..k] == known[..k];
      if b != "" && b != ERROR_BUCKET_ID {
        var i := Index(spec, b);
        if i.Some? && i.value < oldest {
          kept := kept + [b];
        }
      }
    }
    assert known[..|known|] == known;
    out := Some(kept);
  }

  /** Once evicted, always evicted: the set only grows as the clock advances. */
  lemma EvictionGrows(unit: TimeUnit, now: int, later: int, depth: int, b: string)
    requires InInt64(now) && InInt64(later) && now <= later
    requires Evicted(TimeAxis(unit), now, depth, b) && CurrentIndex(TimeAxis(unit), later).Some?
    ensures Evicted(TimeAxis(unit), later, depth, b)
  {
    CurrentIndexIsPeriod(unit, now);
    CurrentIndexIsPeriod(unit, later);
    PeriodMonotone(unit, now, later);
  }

  /** No key is ever written to an evicted bucket, from the moment of eviction on. */
  lemma EvictedIsUnroutable(lib: Lib, unit: TimeUnit, now: int, later: int, key: Key, depth: int, maxFuture: int,
      b: string)
    requires InInt64(now) && InInt64(later) && now <= later
    requires Evicted(TimeAxis(unit), now, depth, b)
    ensures ClassifyWrite(lib, TimeAxis(unit), later, key, depth, maxFuture) != Some(ToBucket(b))
  {
    var spec := TimeAxis(unit);
    if CurrentIndex(spec, later).Some? {
      EvictionGrows(unit, now, later, depth, b);
    }
    var target := ID(lib, spec, key);
    if target == Some(b) {
      PlaceEvicted(b, Index(spec, b), CurrentIndex(spec, later), depth, maxFuture);
    } else if target.Some? {
      PlaceElsewhere(target.value, Index(spec, target.value), CurrentIndex(spec, later), depth, maxFuture, b);
    }
  }

  lemma PlaceKeepsTarget(target: string, index: Option<int>, current: Option<int>, depth: int, maxFuture: int)
    ensures var route := Place(target, index, current, depth, maxFuture);
            route.Some? && route.value.kind == RouteBucket ==> route.value.bucketId == target
  {
  }

  lemma PlaceEvicted(b: string, index: Option<int>, current: Option<int>, depth: int, maxFuture: int)
    requires index.Some? && (current.Some? ==> index.value < current.value - depth + 1)
    ensures Place(b, index, current, depth, maxFuture) != Some(ToBucket(b))
  {
  }

  lemma PlaceElsewhere(target: string, index: Option<int>, current: Option<int>, depth: int, maxFuture: int, b: string)
    requires target != b
    ensures Place(target, index, current, depth, maxFuture) != Some(ToBucket(b))
  {
  }

  /** The bucket of an instant is evicted exactly when its period is at least the depth behind the present one. */
  lemma OldInstantIsEvicted(unit: TimeUnit, now: int, t: int, depth: int)
    requires InInt64(now) && InInt64(t) && Readable(unit, now) && Readable(unit, t)
    ensures Evicted(TimeAxis(unit), now, depth, TimeID(unit, t)) <==> Period(unit, t) <= Period(unit, now) - depth
  {
    hide TimeID, Period, Readable;
    CurrentIndexIsPeriod(unit, now);
    IndexOfTimeID(unit, t);
    SpecialNamesHaveNoIndex(unit);
    hide Index, CurrentIndex;
  }

  lemma SpecialNamesHaveNoIndex(unit: TimeUnit)
    ensures Index(TimeAxis(unit), "") == None && Index(TimeAxis(unit), ERROR_BUCKET_ID) == None
  {
    SplitNoSeparator("", '-');
    SplitNoSeparator(ERROR_BUCKET_ID, '-');
    hide Split;
  }

  /** A bucket of the past or present takes writes until it is evicted, and not a moment longer. */
  lemma RetainedOrEvicted(lib: Lib, unit: TimeUnit, now: int, t: int, depth: int, maxFuture: int)
    requires InInt64(now) && InInt64(t) && Readable(unit, now) && Readable(unit, t) && t <= now
    ensures ClassifyWrite(lib, TimeAxis(unit), now, KeyFor(t), depth, maxFuture) == Some(ToBucket(TimeID(unit, t)))
            <==> !Evicted(TimeAxis(unit), now, depth, TimeID(unit, t))
  {
    hide TimeID, Period, Readable, ClassifyWrite, CurrentIndex, Index, Evicted;
    OldInstantIsEvicted(unit, now, t, depth);
    PeriodMonotone(unit, t, now);
    CurrentIndexIsPeriod(unit, now);
    IndexOfTimeID(unit, t);
    KeyForIsPresent(lib, unit, t);
    WritesStayInWindow(lib, unit, now, KeyFor(t), depth, maxFuture, TimeID(unit, t));
  }

  // ---- the size of the window ----------------------------------------------------------

  function BucketName(unit: TimeUnit, i: int): string {
    IDFromIndex(TimeAxis(unit), i).value
  }

  function Tabulate(name: int -> string, first: int, count: nat): seq<string> {
    seq(count, k => name(first + k))
  }

  /** The ids of `count` consecutive time buckets. */
  function IdRange(unit: TimeUnit, first: int, count: nat): seq<string> {
    Tabulate(i => BucketName(unit, i), first, count)
  }

  /** The bucket's period starts in a year its id can hold, at an instant an int64 key can name. */
  predicate Named(unit: TimeUnit, i: int) {
    InInt64(PeriodStart(unit, i)) && Readable(unit, PeriodStart(unit, i)) && GoKey(KeyFor(PeriodStart(unit, i)))
  }

  predicate RangeNamed(unit: TimeUnit, first: int, count: nat) {
    forall i :: first <= i < first + count ==> Named(unit, i)
  }

  lemma NamedIndex(unit: TimeUnit, i: int)
    requires Named(unit, i)
    ensures BucketName(unit, i) == TimeID(unit, PeriodStart(unit, i))
    ensures Index(TimeAxis(unit), BucketName(unit, i)) == Some(i)
  {
    PeriodOfStart(unit, i);
    IndexOfTimeID(unit, PeriodStart(unit, i));
    TimeIDIsCanonical(unit, PeriodStart(unit, i));
  }

  lemma NamesDiffer(unit: TimeUnit, i: int, j: int)
    requires Named(unit, i) && Named(unit, j) && i != j
    ensures BucketName(unit, i) != BucketName(unit, j)
  {
    NamedIndex(unit, i);
    NamedIndex(unit, j);
  }

  predicate NoDuplicates<T(==)>(s: seq<T>) {
    forall i, j :: 0 <= i < j < |s| ==> s[i] != s[j]
  }

  lemma TabulateDistinct(name: int -> string, first: int, count: nat)
    requires forall i, j :: first <= i < j < first + count ==> name(i) != name(j)
    ensures NoDuplicates(Tabulate(name, first, count))
  {
  }

  /** The member of a tabulated range that is `b`. */
  lemma TabulateMember(name: int -> string, first: int, count: nat, b: string) returns (i: int)
    requires b in Tabulate(name, first, count)
    ensures first <= i < first + count && name(i) == b
  {
    var s := Tabulate(name, first, count);
    var k :| 0 <= k < |s| && s[k] == b;
    i := first + k;
  }

  lemma TabulateHas(name: int -> string, first: int, count: nat, i: int)
    requires first <= i < first + count
    ensures name(i) in Tabulate(name, first, count)
  {
    assert Tabulate(name, first, count)[i - first] == name(i);
  }

  lemma IdRangeDistinct(unit: TimeUnit, first: int, count: nat)
    requires RangeNamed(unit, first, count)
    ensures |IdRange(unit, first, count)| == count
    ensures NoDuplicates(IdRange(unit, first, count))
  {
    var name := i => BucketName(unit, i);
    forall i, j | first <= i < j < first + count
      ensures name(i) != name(j)
    {
      NamesDiffer(unit, i, j);
    }
    TabulateDistinct(name, first, count);
  }

  /** The key and its instant fit Go's int64, and the key is written to `b` at time `now`. */
  predicate RoutesTo(lib: Lib, unit: TimeUnit, now: int, key: Key, depth: int, maxFuture: int, b: string) {
    && GoKey(key) && (ParseTimeKey(lib, key).Some? ==> InInt64(ParseTimeKey(lib, key).value))
    && ClassifyWrite(lib, TimeAxis(unit), now, key, depth, maxFuture) == Some(ToBucket(b))
  }

  ghost predicate Writable(lib: Lib, unit: TimeUnit, now: int, depth: int, maxFuture: int, b: string) {
    exists key :: RoutesTo(lib, unit, now, key, depth, maxFuture, b)
  }

  /** The writable ids are `depth + maxFuture` different ones, from the oldest retained bucket on. */
  lemma WritableWindow(lib: Lib, unit: TimeUnit, now: int, cur: int, depth: nat, maxFuture: nat, b: string)
    requires CurrentIndex(TimeAxis(unit), now) == Some(cur)
    requires RangeNamed(unit, cur - depth + 1, depth + maxFuture)
    ensures |IdRange(unit, cur - depth + 1, depth + maxFuture)| == depth + maxFuture
    ensures NoDuplicates(IdRange(unit, cur - depth + 1, depth + maxFuture))
    ensures Writable(lib, unit, now, depth, maxFuture, b) <==> b in IdRange(unit, cur - depth + 1, depth + maxFuture)
  {
    hide IdRange, CurrentIndex, RoutesTo, RangeNamed;
    IdRangeDistinct(unit, cur - depth + 1, depth + maxFuture);
    if b in IdRange(unit, cur - depth + 1, depth + maxFuture) {
      RangeIsWritable(lib, unit, now, cur, depth, maxFuture, b);
    }
    if key :| RoutesTo(lib, unit, now, key, depth, maxFuture, b) {
      WritableIsInRange(lib, unit, now, cur, key, depth, maxFuture, b);
    }
  }

  lemma RangeIsWritable(lib: Lib, unit: TimeUnit, now: int, cur: int, depth: nat, maxFuture: nat, b: string)
    requires CurrentIndex(TimeAxis(unit), now) == Some(cur)
    requires RangeNamed(unit, cur - depth + 1, depth + maxFuture)
    requires b in IdRange(unit, cur - depth + 1, depth + maxFuture)
    ensures Writable(lib, unit, now, depth, maxFuture, b)
  {
    hide BucketName, CurrentIndex, Named, RoutesTo;
    var i := TabulateMember(i => BucketName(unit, i), cur - depth + 1, depth + maxFuture, b);
    NameRoutes(lib, unit, now, cur, depth, maxFuture, i);
  }

  lemma NameRoutes(lib: Lib, unit: TimeUnit, now: int, cur: int, depth: nat, maxFuture: nat, i: int)
    requires CurrentIndex(TimeAxis(unit), now) == Some(cur) && Named(unit, i) && InWindow(i, cur, depth, maxFuture)
    ensures RoutesTo(lib, unit, now, KeyFor(PeriodStart(unit, i)), depth, maxFuture, BucketName(unit, i))
  {
    var t := PeriodStart(unit, i);
    NamedIndex(unit, i);
    KeyForReads(lib, t);
    WritesStayInWindow(lib, unit, now, KeyFor(t), depth, maxFuture, BucketName(unit, i));
  }

  lemma WritableIsInRange(lib: Lib, unit: TimeUnit, now: int, cur: int, key: Key, depth: nat, maxFuture: nat, b: string)
    requires CurrentIndex(TimeAxis(unit), now) == Some(cur)
    requires RoutesTo(lib, unit, now, key, depth, maxFuture, b)
    ensures b in IdRange(unit, cur - depth + 1, depth + maxFuture)
  {
    hide ID, ParseTimeKey, TimeID, Index, IDFromIndex, ClassifyWrite, CurrentIndex, IdRange;
    WritesStayInWindow(lib, unit, now, key, depth, maxFuture, b);
    var t := TimeOfId(lib, unit, key, b);
    IndexOfTimeID(unit, t);
    TimeIDIsCanonical(unit, t);
    NameIsInRange(unit, cur - depth + 1, depth + maxFuture, Period(unit, t));
  }

  lemma TimeOfId(lib: Lib, unit: TimeUnit, key: Key, b: string) returns (t: int)
    requires ID(lib, TimeAxis(unit), key) == Some(b)
    ensures ParseTimeKey(lib, key) == Some(t) && b == TimeID(unit, t)
  {
    t := ParseTimeKey(lib, key).value;
  }

  lemma NameIsInRange(unit: TimeUnit, first: int, count: nat, i: int)
    requires first <= i < first + count
    ensures BucketName(unit, i) in IdRange(unit, first, count)
  {
    hide BucketName;
    TabulateHas(i => BucketName(unit, i), first, count, i);
  }

  // ---- bootstrap ---------------------------------------------------------------------------

  datatype Mode = RangeMode | HashMode | DefaultMode | OtherMode

  predicate ValidateBootstrap(mode: Mode, spec: Spec, depth: Option<int>, maxFuture: Option<int>) {
    if mode.OtherMode? then false
    else if mode.HashMode? || spec.HashAxis? then !mode.RangeMode? && spec.HashAxis?
    else spec.TimeAxis? ==> depth.Some? && depth.value >= 1 && maxFuture.Some? && maxFuture.value >= 0
  }

  /**
   What the bootstrap check buys: it accepts a time cluster exactly if the mode allows one, the future is not negative,
   and the present bucket takes writes.
   */
  lemma BootstrapAdmitsPresent(lib: Lib, unit: TimeUnit, now: int, mode: Mode, depth: int, maxFuture: int)
    requires InInt64(now) && Readable(unit, now) && GoKey(KeyFor(now))
    ensures ValidateBootstrap(mode, TimeAxis(unit), Some(depth), Some(maxFuture))
            <==> && (mode.RangeMode? || mode.DefaultMode?) && maxFuture >= 0
                 && ClassifyWrite(lib, TimeAxis(unit), now, KeyFor(now), depth, maxFuture)
                    == Some(ToBucket(TimeID(unit, now)))
  {
    hide Index, TimeID, Readable, Period, ClassifyWrite, CurrentIndex;
    IndexOfTimeID(unit, now);
    CurrentIndexIsPeriod(unit, now);
    KeyForIsPresent(lib, unit, now);
    WritesStayInWindow(lib, unit, now, KeyFor(now), depth, maxFuture, TimeID(unit, now));
  }

  /** A time cluster needs a depth and a future; hash and numeric clusters need neither, but their own mode. */
  lemma BootstrapOfOtherAxes(mode: Mode, unit: TimeUnit, n: int, depth: Option<int>, maxFuture: Option<int>)
    ensures depth.None? || maxFuture.None? ==> !ValidateBootstrap(mode, TimeAxis(unit), depth, maxFuture)
    ensures ValidateBootstrap(mode, HashAxis(n), depth, maxFuture) <==> mode.HashMode? || mode.DefaultMode?
    ensures ValidateBootstrap(mode, NumericAxis(n), depth, maxFuture) <==> mode.RangeMode? || mode.DefaultMode?
  {
  }

  lemma KeyForIsPresent(lib: Lib, unit: TimeUnit, now: int)
    ensures ID(lib, TimeAxis(unit), KeyFor(now)) == Some(TimeID(unit, now))
  {
    KeyForReads(lib, now);
    hide TimeID;
  }
}

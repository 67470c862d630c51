/** Numeric and hash bucket names: what they identify and how they sort. */
module BucketNames {
  import opened Common
  import opened Decimal
  import opened Bucket

  /** `n` lies in the `q`-th interval of the given width. */
  predicate InInterval(n: int, width: int, q: int) {
    q * width <= n < q * width + width
  }

  lemma FloorInterval(n: int, width: int, q: int)
    requires width > 0
    ensures InInterval(n, width, q) <==> q == n / width
  {
    var f, r := n / width, n % width;
    assert n == f * width + r;
    if InInterval(n, width, q) && q != f {
      if q < f {
        assert (q + 1) * width <= f * width by { MulMonotone(q + 1, f, width); }
      } else {
        assert (f + 1) * width <= q * width by { MulMonotone(f + 1, q, width); }
      }
    }
  }

  lemma MulMonotone(a: int, b: int, width: int)
    requires a <= b && width > 0
    ensures a * width <= b * width
  {
  }

  /** No int64 underflow in `n - width + 1`. */
  predicate NoUnderflow(n: int, width: int) {
    n >= 0 || n - width + 1 >= MIN_INT64
  }

  /** The truncating formula is the floor exactly when its subtraction does not underflow. */
  lemma NumericIndexIsFloor(n: int, width: int)
    requires InInt64(n) && 0 < width <= MAX_INT64
    ensures NumericIndex(n, width) == n / width <==> NoUnderflow(n, width)
  {
    if n < 0 && NoUnderflow(n, width) {
      NegativeFloor(n, width);
    } else if n < 0 {
      NegativeQuotient(n, width);
      WrappedQuotient(n - width + 1, width);
    }
  }

  lemma WrappedQuotient(a: int, width: int)
    requires 2 * MIN_INT64 <= a < MIN_INT64 && width > 0
    ensures TruncDiv(Wrap64(a), width) >= 0
  {
    assert Wrap64(a) >= 0;
    assert Wrap64(a) / width >= 0;
  }

  lemma NegativeQuotient(n: int, width: int)
    requires n < 0 < width
    ensures n / width < 0
  {
    if n / width >= 0 {
      MulMonotone(0, n / width, width);
      FloorInterval(n, width, n / width);
      assert false;
    }
  }

  lemma NegativeFloor(n: int, width: int)
    requires n < 0 < width
    ensures TruncDiv(n - width + 1, width) == n / width
  {
    var p := -(n - width + 1);
    var k := p / width;
    FloorInterval(p, width, k);
    assert (-k) * width == -(k * width);
    FloorInterval(n, width, -k);
  }

  /** However a number is written, numeric keys read it back. */
  lemma SpellingReads(key: Key, n: int)
    requires InInt64(n) && Spells(key, n)
    ensures ParseNumericKey(key) == Some(n)
  {
    ParseOfPrint(n);
  }

  lemma NumericNamesDiffer(p: int, q: int)
    ensures "n" + PrintInt(p) == "n" + PrintInt(q) <==> p == q
  {
    var a, b := "n" + PrintInt(p), "n" + PrintInt(q);
    if a == b {
      assert a[1..] == PrintInt(p) && b[1..] == PrintInt(q);
      PrintIntInjective(p, q);
    }
  }

  /**
   A key of any type that reads as `n` gets the name of the interval `n` lies in, and no other, unless the subtraction
   underflows; then it does not get that name.
   */
  lemma NumericIdNamesInterval(lib: Lib, width: int, key: Key, n: int, q: int)
    requires ParseNumericKey(key) == Some(n) && InInt64(n) && 0 < width <= MAX_INT64
    ensures NoUnderflow(n, width) ==>
              (ID(lib, NumericAxis(width), key) == Some("n" + PrintInt(q)) <==> InInterval(n, width, q))
    ensures !NoUnderflow(n, width) && InInterval(n, width, q) ==>
            ID(lib, NumericAxis(width), key) != Some("n" + PrintInt(q))
  {
    NumericIndexIsFloor(n, width);
    FloorInterval(n, width, q);
    NumericNamesDiffer(NumericIndex(n, width), q);
    hide NumericIndex, InInterval;
  }

  /** Two numeric keys share a bucket exactly when one interval holds both. */
  lemma NumericSameBucket(lib: Lib, width: int, a: Key, m: int, b: Key, n: int)
    requires ParseNumericKey(a) == Some(m) && ParseNumericKey(b) == Some(n)
    requires InInt64(m) && InInt64(n) && 0 < width <= MAX_INT64
    requires NoUnderflow(m, width) && NoUnderflow(n, width)
    ensures ID(lib, NumericAxis(width), a) == ID(lib, NumericAxis(width), b)
            <==> exists q :: InInterval(m, width, q) && InInterval(n, width, q)
  {
    NumericIdNamesInterval(lib, width, a, m, m / width);
    NumericIdNamesInterval(lib, width, b, n, m / width);
    FloorInterval(m, width, m / width);
    forall q | InInterval(m, width, q) && InInterval(n, width, q)
      ensures q == m / width
    {
      FloorInterval(m, width, q);
    }
  }

  /** The underflow is reachable: the smallest int64 with width 2 lands in a positive bucket. */
  lemma NumericUnderflowExample()
    ensures NumericIndex(MIN_INT64, 2) == 0x3FFF_FFFF_FFFF_FFFF
    ensures !NoUnderflow(MIN_INT64, 2)
  {
  }

  // ---- hash buckets -------------------------------------------------------------------

  /** Hash ids of one cluster have one length, and string order on them is bucket order. */
  lemma HashIdOrder(bucketCount: int, i: nat, j: nat)
    requires i < bucketCount && j < bucketCount
    ensures |HashId(i, bucketCount)| == 1 + DigitCount(bucketCount - 1) == 1 + |Print(bucketCount - 1)|
    ensures LexLess(HashId(i, bucketCount), HashId(j, bucketCount)) <==> i < j
    ensures HashId(i, bucketCount) == HashId(j, bucketCount) <==> i == j
  {
    var w := DigitCount(bucketCount - 1);
    PrintLengthMonotone(i, bucketCount - 1);
    PrintLengthMonotone(j, bucketCount - 1);
    ValueOfPad(i, w);
    ValueOfPad(j, w);
    LexLessIsNumeric(Pad(i, w), Pad(j, w));
    assert HashId(i, bucketCount)[1..] == Pad(i, w) && HashId(j, bucketCount)[1..] == Pad(j, w);
  }

  /** The text a key is hashed by: strings in lower case, whole numbers in decimal, JSON numbers as written. */
  predicate HashedAs(lib: Lib, key: Key, text: string) {
    match key
    case Text(s) => text == lib.lower(s)
    case Float(n) => text == PrintInt(n)
    case Int64(n) => text == PrintInt(n)
    case Int(n) => text == PrintInt(n)
    case JsonNumber(s) => text == s
    case Unsupported => false
  }

  /** The id of a key is 'h' and, in as many digits as the largest index has, its hash modulo the bucket count. */
  lemma HashIdIsHash(lib: Lib, bucketCount: int, key: Key, text: string)
    requires 0 < bucketCount <= MAX_INT64 && HashedAs(lib, key, text)
    ensures ID(lib, HashAxis(bucketCount), key).Some?
    ensures var id := ID(lib, HashAxis(bucketCount), key).value;
            && |id| == 1 + |Print(bucketCount - 1)| && id[0] == 'h' && AllDigits(id[1..])
            && Value(id[1..]) == lib.xxhash64(text) % bucketCount
  {
    var i := lib.xxhash64(text) % bucketCount;
    var w := DigitCount(bucketCount - 1);
    HashIdOrder(bucketCount, i, i);
    PrintLengthMonotone(i, bucketCount - 1);
    ValueOfPad(i, w);
    var id := ID(lib, HashAxis(bucketCount), key).value;
    assert id == HashId(i, bucketCount) && id[1..] == Pad(i, w);
    hide Pad, Print, Value;
  }

  /** Keys share a hash bucket exactly when their texts hash alike modulo the bucket count. */
  lemma HashSameBucket(lib: Lib, bucketCount: int, a: Key, s: string, b: Key, t: string)
    requires 0 < bucketCount <= MAX_INT64 && HashedAs(lib, a, s) && HashedAs(lib, b, t)
    ensures ID(lib, HashAxis(bucketCount), a) == ID(lib, HashAxis(bucketCount), b)
            <==> lib.xxhash64(s) % bucketCount == lib.xxhash64(t) % bucketCount
  {
    hide ID, Print, HashedAs;
    HashIdIsHash(lib, bucketCount, a, s);
    HashIdIsHash(lib, bucketCount, b, t);
    var x, y := ID(lib, HashAxis(bucketCount), a).value, ID(lib, HashAxis(bucketCount), b).value;
    LexLessIsNumeric(x[1..], y[1..]);
    assert x == [x[0]] + x[1..] && y == [y[0]] + y[1..];
  }

  /** However a number is written, it gets one hash bucket; a key of an unsupported type gets none. */
  lemma HashSpellingsAgree(lib: Lib, bucketCount: int, a: Key, b: Key, n: int)
    requires 0 < bucketCount <= MAX_INT64 && Spells(a, n) && Spells(b, n) && lib.lower(PrintInt(n)) == PrintInt(n)
    ensures ID(lib, HashAxis(bucketCount), a) == ID(lib, HashAxis(bucketCount), b)
    ensures ID(lib, HashAxis(bucketCount), Unsupported) == None
  {
    HashSameBucket(lib, bucketCount, a, PrintInt(n), b, PrintInt(n));
  }

  /** Keys that are no number have no numeric bucket. */
  lemma NumericRefuses(lib: Lib, width: int, key: Key)
    requires 0 < width <= MAX_INT64 && (key.JsonNumber? || key.Unsupported? || (key.Text? && ReadInt(key.text).None?))
    ensures ID(lib, NumericAxis(width), key) == None
  {
  }

  /** No key is routed to the empty name, which the wire format uses for "no bucket". */
  lemma IdNotEmpty(lib: Lib, spec: Spec, key: Key)
    requires ValidSpec(spec) && ID(lib, spec, key).Some?
    ensures ID(lib, spec, key).value != ""
  {
  }
}

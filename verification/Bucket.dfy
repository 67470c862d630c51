/**
 internal/bucket/bucket.go: from a shard key to a bucket id, and between time bucket ids and
 their index. An instant is the floor of its Unix time in seconds; finer parts never reach an id.
 */
module Bucket {
  import opened Common
  import opened Decimal
  import opened Calendar

  const ERROR_BUCKET_ID := "__error__"

  /** Numbers above this are milliseconds. */
  const SECONDS_THRESHOLD := 32_536_800_000

  datatype TimeUnit = Hour | Day | Month

  datatype Spec =
    | TimeAxis(unit: TimeUnit)
    | NumericAxis(width: int)
    | HashAxis(bucketCount: int)

  /** What ParseSpec accepts. */
  predicate ValidSpec(spec: Spec) {
    match spec
    case TimeAxis(_) => true
    case NumericAxis(width) => 0 < width <= MAX_INT64
    case HashAxis(count) => 0 < count <= MAX_INT64
  }

  /** A shard key by its Go dynamic type; `Float` holds the integer value of a whole float64. */
  datatype Key =
    | Text(text: string)
    | Float(n: int)
    | Int64(n: int)
    | Int(n: int)
    | JsonNumber(text: string)
    | Unsupported

  /** The key's number fits the Go type it stands for. */
  predicate GoKey(key: Key) {
    key.Float? || key.Int64? || key.Int? ==> InInt64(key.n)
  }

  /** The ways to write the number `n` as a key. */
  predicate Spells(key: Key, n: int) {
    key == Int64(n) || key == Int(n) || key == Float(n) || key == Text(PrintInt(n))
  }

  /** Library code the ids depend on: strings.ToLower, xxhash.Sum64String, time.Parse(time.RFC3339, _). */
  datatype Lib = Lib(lower: string -> string, xxhash64: string -> nat, parseRfc3339: string -> Option<int>)

  // ---- reading keys -----------------------------------------------------------

  function FromUnixNumber(v: int): int {
    if v > SECONDS_THRESHOLD then v / 1000 else v
  }

  function ParseTimeKey(lib: Lib, key: Key): Option<int> {
    match key
    case Text(s) =>
      if lib.parseRfc3339(s).Some? then lib.parseRfc3339(s)
      else if ParseDate(s).Some? then Some(ParseDate(s).value * 86400)
      else if ParseYearMonth(s).Some? then Some(ParseYearMonth(s).value * 86400)
      else if ParseInt64(s).Some? then Some(FromUnixNumber(ParseInt64(s).value))
      else None
    case Float(n) => Some(FromUnixNumber(n))
    case Int64(n) => Some(FromUnixNumber(n))
    case Int(n) => Some(FromUnixNumber(n))
    case JsonNumber(_) => None
    case Unsupported => None
  }

  function ParseNumericKey(key: Key): Option<int> {
    match key
    case Text(s) => ParseInt64(s)
    case Float(n) => Some(n)
    case Int64(n) => Some(n)
    case Int(n) => Some(n)
    case JsonNumber(_) => None
    case Unsupported => None
  }

  function StringifyKey(lib: Lib, key: Key): Option<string> {
    match key
    case Text(s) => Some(lib.lower(s))
    case Float(n) => Some(PrintInt(n))
    case Int64(n) => Some(PrintInt(n))
    case Int(n) => Some(PrintInt(n))
    case JsonNumber(s) => Some(s)
    case Unsupported => None
  }

  // ---- ids ----------------------------------------------------------------------

  /** Truncating division bent into a floor, on int64. */
  function NumericIndex(n: int, width: int): int
    requires width > 0
  {
    if n < 0 then TruncDiv(Wrap64(n - width + 1), width) else TruncDiv(n, width)
  }

  function HashId(index: nat, bucketCount: int): string {
    "h" + Pad(index, DigitCount(bucketCount - 1))
  }

  function ID(lib: Lib, spec: Spec, key: Key): Option<string>
    requires ValidSpec(spec)
  {
    match spec
    case TimeAxis(unit) =>
      (match ParseTimeKey(lib, key)
       case None => None
       case Some(t) => Some(TimeID(unit, t)))
    case NumericAxis(width) =>
      (match ParseNumericKey(key)
       case None => None
       case Some(n) => Some("n" + PrintInt(NumericIndex(n, width))))
    case HashAxis(count) =>
      (match StringifyKey(lib, key)
       case None => None
       case Some(s) => Some(HashId(lib.xxhash64(s) % count, count)))
  }

  function CurrentID(spec: Spec, now: int): Option<string> {
    match spec
    case TimeAxis(unit) => Some(TimeID(unit, now))
    case NumericAxis(_) => None
    case HashAxis(_) => None
  }

  /** The year field of Go's layouts: at least four digits after any sign. */
  function FormatYear(y: int): string {
    if y < 0 then "-" + Pad(-y, 4) else Pad(y, 4)
  }

  function FormatYearMonth(d: Date): string
    requires ValidDate(d)
  {
    FormatYear(d.year) + "-" + Pad(d.month, 2)
  }

  function FormatDate(d: Date): string
    requires ValidDate(d)
  {
    FormatYear(d.year) + "-" + Pad(d.month, 2) + "-" + Pad(d.day, 2)
  }

  function DayOf(t: int): int { t / 86400 }

  function HourOf(t: int): int { t % 86400 / 3600 }

  function TimeID(unit: TimeUnit, t: int): string {
    var d := CivilDate(DayOf(t));
    match unit
    case Hour => FormatDate(d) + "T" + Pad(HourOf(t), 2)
    case Day => FormatDate(d)
    case Month => FormatYearMonth(d)
  }

  // ---- reading ids back -----------------------------------------------------------

  /** time.Parse("2006-01-02", s) as a day number. */
  function ParseDate(s: string): Option<int> {
    if |s| == 10 && AllDigits(s[..4]) && s[4] == '-' && AllDigits(s[5..7]) && s[7] == '-' && AllDigits(s[8..]) then
      var d := Date(Value(s[..4]), Value(s[5..7]), Value(s[8..]));
      if ValidDate(d) then Some(DayNumber(d)) else None
    else None
  }

  /** time.Parse("2006-01", s) as the day number of the first of the month. */
  function ParseYearMonth(s: string): Option<int> {
    if |s| == 7 then ParseDate(s + "-01") else None
  }

  /** time.Parse("2006-01-02T15", s) as a Unix time; the hour may have one digit. */
  function ParseDateHour(s: string): Option<int> {
    if 12 <= |s| <= 13 && s[10] == 'T' && AllDigits(s[11..]) && ParseDate(s[..10]).Some? && Value(s[11..]) < 24 then
      Some(ParseDate(s[..10]).value * 86400 + Value(s[11..]) * 3600)
    else None
  }

  /** strings.Split(s, sep) for a one-character separator. */
  function Split(s: string, sep: char): (parts: seq<string>)
    ensures |parts| >= 1
  {
    if |s| == 0 then [[]]
    else
      var rest := Split(s[1..], sep);
      if s[0] == sep then [[]] + rest else [[s[0]] + rest[0]] + rest[1..]
  }

  function ParseMonthIndex(s: string): Option<int> {
    var parts := Split(s, '-');
    if |parts| != 2 then None
    else Some(Wrap64(AtoiIgnoringError(parts[0]) * 12 + AtoiIgnoringError(parts[1]) - 1))
  }

  function Index(spec: Spec, bucketId: string): Option<int> {
    match spec
    case NumericAxis(_) => None
    case HashAxis(_) => None
    case TimeAxis(Hour) =>
      (match ParseDateHour(bucketId) case None => None case Some(t) => Some(TruncDiv(t, 3600)))
    case TimeAxis(Day) =>
      (match ParseDate(bucketId) case None => None case Some(n) => Some(TruncDiv(n * 86400, 86400)))
    case TimeAxis(Month) => ParseMonthIndex(bucketId)
  }

  function IDFromIndex(spec: Spec, index: int): Option<string> {
    match spec
    case NumericAxis(_) => None
    case HashAxis(_) => None
    case TimeAxis(Hour) => Some(TimeID(Hour, Wrap64(index * 3600)))
    case TimeAxis(Day) => Some(TimeID(Day, Wrap64(index * 86400)))
    case TimeAxis(Month) =>
      Some(PadInt(TruncDiv(index, 12), 4) + "-" + PadInt(TruncMod(index, 12) + 1, 2))
  }

  /** Physical shards a time-axis deployment needs, error shard included. */
  function MinShards(retentionDepth: int, maxFuture: int): int {
    retentionDepth + 1 + maxFuture + 1
  }
}

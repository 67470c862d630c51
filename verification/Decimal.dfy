/**
 Decimal text: what `%d`, `%0*d` and `strconv.FormatInt` print, what `strconv.Atoi` and
 `strconv.ParseInt` read back, and the order of zero-padded numbers as strings.
 */
module Decimal {
  import opened Common

  predicate IsDigit(c: char) {
    '0' <= c <= '9'
  }

  predicate AllDigits(s: string) {
    forall i :: 0 <= i < |s| ==> IsDigit(s[i])
  }

  function DigitChar(d: nat): (c: char)
    requires d < 10
    ensures IsDigit(c) && DigitValue(c) == d
  {
    (48 + d) as char
  }

  function DigitValue(c: char): (d: nat)
    requires IsDigit(c)
    ensures d < 10
  {
    c as int - 48
  }

  /** The decimal digits of `n`, with no leading zero. */
  function Print(n: nat): (s: string)
    ensures |s| > 0 && AllDigits(s)
  {
    if n < 10 then [DigitChar(n)] else Print(n / 10) + [DigitChar(n % 10)]
  }

  function PrintInt(n: int): string {
    if n < 0 then "-" + Print(-n) else Print(n)
  }

  function Zeros(k: nat): (s: string)
    ensures |s| == k && AllDigits(s)
  {
    seq(k, i => '0')
  }

  /** `%0*d` of a non-negative number. */
  function Pad(n: nat, width: int): (s: string)
    ensures AllDigits(s)
    ensures |s| == if |Print(n)| < width then width else |Print(n)|
  {
    if |Print(n)| < width then Zeros(width - |Print(n)|) + Print(n) else Print(n)
  }

  /** `%0*d` of any number: the sign counts towards the width. */
  function PadInt(n: int, width: int): string {
    if n < 0 then "-" + Pad(-n, width - 1) else Pad(n, width)
  }

  /** The number a digit string denotes. */
  function Value(s: string): nat
    requires AllDigits(s)
  {
    if |s| == 0 then 0 else 10 * Value(s[..|s| - 1]) + DigitValue(s[|s| - 1])
  }

  lemma {:induction false} ValueOfPrint(n: nat)
    ensures Value(Print(n)) == n
  {
    if n >= 10 {
      ValueOfPrint(n / 10);
      assert Print(n)[..|Print(n)| - 1] == Print(n / 10);
    }
  }

  lemma {:induction false} ValueSkipsZeros(k: nat, s: string)
    requires AllDigits(s)
    ensures Value(Zeros(k) + s) == Value(s)
  {
    var t := Zeros(k) + s;
    if |s| > 0 {
      ValueSkipsZeros(k, s[..|s| - 1]);
      assert t[..|t| - 1] == Zeros(k) + s[..|s| - 1];
    } else if k > 0 {
      ValueSkipsZeros(k - 1, s);
      assert t[..|t| - 1] == Zeros(k - 1) + s;
    }
  }

  /** Zero padding does not change the number read back. */
  lemma ValueOfPad(n: nat, width: int)
    ensures Value(Pad(n, width)) == n
  {
    ValueOfPrint(n);
    if |Print(n)| < width {
      ValueSkipsZeros(width - |Print(n)|, Print(n));
    }
  }

  /** A signed number's text shows its sign and its digits. */
  lemma ReadBack(n: int)
    ensures if n >= 0 then IsDigit(PrintInt(n)[0]) && Value(PrintInt(n)) == n
            else PrintInt(n)[0] == '-' && PrintInt(n)[1..] == Print(-n) && Value(Print(-n)) == -n
  {
    ValueOfPrint(if n >= 0 then n else -n);
  }

  /** Signed printing is injective: equal text means equal numbers. */
  lemma PrintIntInjective(a: int, b: int)
    requires PrintInt(a) == PrintInt(b)
    ensures a == b
  {
    ReadBack(a);
    ReadBack(b);
  }

  lemma {:induction false} PrintLengthMonotone(a: nat, b: nat)
    requires a <= b
    ensures |Print(a)| <= |Print(b)|
  {
    if a >= 10 {
      PrintLengthMonotone(a / 10, b / 10);
    }
  }

  /** `w` digits suffice exactly for the numbers below ten to the `w`. */
  lemma {:induction false} PrintLength(n: nat, w: nat)
    requires w > 0
    ensures |Print(n)| <= w <==> n < Pow10(w)
  {
    if w == 1 {
      assert Pow10(1) == 10 * Pow10(0);
    } else if n >= 10 {
      PrintLength(n / 10, w - 1);
    } else {
      Pow10Positive(w - 1);
    }
  }

  function Pow10(w: nat): nat {
    if w == 0 then 1 else 10 * Pow10(w - 1)
  }

  lemma {:induction false} Pow10Positive(w: nat)
    ensures Pow10(w) >= 1
  {
    if w > 0 {
      Pow10Positive(w - 1);
    }
  }

  /** What digitWidth returns. */
  function DigitCount(n: int): nat {
    if n < 10 then 1 else |Print(n)|
  }

  /** internal/bucket digitWidth: counts decimal digits by repeated division. */
  method DigitWidth(n: int) returns (w: nat)
    ensures w == DigitCount(n)
    ensures n >= 0 ==> w == |Print(n)|
  {
    if n < 10 {
      return 1;
    }
    w := 0;
    var m := n;
    while m > 0
      invariant m >= 0
      invariant w + (if m > 0 then |Print(m)| else 0) == |Print(n)|
    {
      m := m / 10;
      w := w + 1;
    }
  }

  /** Byte-wise string order, as Go and SQL's "C" collation compare ids. */
  predicate LexLess(a: string, b: string) {
    |b| > 0 && (|a| == 0 || a[0] < b[0] || (a[0] == b[0] && LexLess(a[1..], b[1..])))
  }

  lemma {:induction false} LexLessSnoc(a: string, c: char, b: string, d: char)
    requires |a| == |b|
    ensures LexLess(a + [c], b + [d]) <==> LexLess(a, b) || (a == b && c < d)
  {
    var x, y := a + [c], b + [d];
    if |a| > 0 {
      assert x[1..] == a[1..] + [c] && y[1..] == b[1..] + [d];
      assert a == [a[0]] + a[1..] && b == [b[0]] + b[1..];
      LexLessSnoc(a[1..], c, b[1..], d);
    } else {
      assert x[1..] == [] && y[1..] == [];
    }
  }

  /** On digit strings of one length, string order is numeric order. */
  lemma {:induction false} LexLessIsNumeric(a: string, b: string)
    requires AllDigits(a) && AllDigits(b) && |a| == |b|
    ensures LexLess(a, b) <==> Value(a) < Value(b)
    ensures a == b <==> Value(a) == Value(b)
  {
    if |a| > 0 {
      hide LexLess, Value;
      var k := |a| - 1;
      LexLessIsNumeric(a[..k], b[..k]);
      LexLessSnoc(a[..k], a[k], b[..k], b[k]);
      assert a == a[..k] + [a[k]] && b == b[..k] + [b[k]];
      ValueSnoc(a);
      ValueSnoc(b);
      LastDigitDecides(Value(a[..k]), DigitValue(a[k]), Value(b[..k]), DigitValue(b[k]));
    }
  }

  lemma ValueSnoc(s: string)
    requires AllDigits(s) && |s| > 0
    ensures Value(s) == 10 * Value(s[..|s| - 1]) + DigitValue(s[|s| - 1])
  {
  }

  lemma LastDigitDecides(x: nat, c: nat, y: nat, d: nat)
    requires c < 10 && d < 10
    ensures 10 * x + c < 10 * y + d <==> x < y || (x == y && c < d)
    ensures 10 * x + c == 10 * y + d <==> x == y && c == d
  {
  }

  // ---- reading numbers back -------------------------------------------------

  predicate HasSign(s: string) {
    |s| > 0 && (s[0] == '+' || s[0] == '-')
  }

  /** The unbounded number written by `s`: an optional sign and at least one digit. */
  function ReadInt(s: string): Option<int> {
    var digits := if HasSign(s) then s[1..] else s;
    if |digits| == 0 || !AllDigits(digits) then None
    else
      var n: int := Value(digits);
      Some(if HasSign(s) && s[0] == '-' then -n else n)
  }

  /** strconv.ParseInt(s, 10, 64), with every error as None. */
  function ParseInt64(s: string): (r: Option<int>)
    ensures r.Some? ==> InInt64(r.value)
  {
    match ReadInt(s)
    case None => None
    case Some(n) => if InInt64(n) then Some(n) else None
  }

  /** The value of strconv.Atoi when its error is ignored: 0 for bad syntax, the nearest bound out of range. */
  function AtoiIgnoringError(s: string): (r: int)
    ensures InInt64(r)
  {
    match ReadInt(s)
    case None => 0
    case Some(n) => if n > MAX_INT64 then MAX_INT64 else if n < MIN_INT64 then MIN_INT64 else n
  }

  lemma AtoiOfPad(n: nat, width: int)
    requires n <= MAX_INT64
    ensures AtoiIgnoringError(Pad(n, width)) == n
  {
    var s := Pad(n, width);
    ValueOfPad(n, width);
    assert IsDigit(s[0]);
  }

  /** Printing an int64 and parsing it back is the identity. */
  lemma ParseOfPrint(n: int)
    requires InInt64(n)
    ensures ParseInt64(PrintInt(n)) == Some(n)
  {
    ReadBack(n);
  }

  /** Texts that are numbers: digits after an optional sign, leading zeros allowed, refused outside int64. */
  lemma ParseIntCases(s: string)
    requires |s| > 0 && AllDigits(s)
    ensures var n: int := Value(s);
            && ParseInt64(s) == ParseInt64("+" + s) == (if n <= 0x7FFF_FFFF_FFFF_FFFF then Some(n) else None)
            && ParseInt64("-" + s) == (if n <= 0x8000_0000_0000_0000 then Some(-n) else None)
            && AtoiIgnoringError(s) == (if n <= 0x7FFF_FFFF_FFFF_FFFF then n else 0x7FFF_FFFF_FFFF_FFFF)
            && AtoiIgnoringError("-" + s) == (if n <= 0x8000_0000_0000_0000 then -n else -0x8000_0000_0000_0000)
  {
    SignedText(s);
    hide ReadInt, Value;
  }

  lemma SignedText(s: string)
    requires |s| > 0 && AllDigits(s)
    ensures var n: int := Value(s); ReadInt(s) == ReadInt("+" + s) == Some(n) && ReadInt("-" + s) == Some(-n)
  {
    hide Value;
    assert IsDigit(s[0]);
    assert ("+" + s)[1..] == s && ("-" + s)[1..] == s;
  }

  /** Everything else is no number: empty, a lone sign, or a character that is not a digit. */
  lemma ParseIntRefuses(s: string, sign: string, k: nat)
    requires k < |s| && !IsDigit(s[k]) && (sign == "" || sign == "+" || sign == "-")
    requires sign == "" ==> k > 0 || (s[0] != '+' && s[0] != '-')
    ensures ParseInt64(sign + s) == None && AtoiIgnoringError(sign + s) == 0
    ensures ParseInt64(sign) == None && AtoiIgnoringError(sign) == 0
  {
    var t := sign + s;
    if sign == "" {
      assert t == s;
      if HasSign(s) { assert s[1..][k - 1] == s[k]; }
    } else {
      assert t[1..] == s;
    }
  }
}

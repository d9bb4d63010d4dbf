/**
 * Go's `strconv.Atoi` and `strconv.Itoa` on 64-bit `int`, the two conversions
 * every use case relies on: request fields and stored prices are decimal
 * strings, and region ids are printed back as strings.
 *
 * `Atoi` follows Go's digit-by-digit scan: an optional sign, then decimal digits
 * only; a syntax error returns 0, a value outside the int64 range returns the
 * nearest int64 bound, and both report failure.
 */
module Strconv {

  const MaxInt64: int := 0x7FFF_FFFF_FFFF_FFFF
  const MinInt64: int := -0x8000_0000_0000_0000
  const MaxUint64: int := 0xFFFF_FFFF_FFFF_FFFF

  /** The pair Go's `strconv.Atoi` returns: the value and whether `err` was nil. */
  datatype Parsed = Parsed(value: int, ok: bool)

  /** Where the unsigned scan of `strconv.ParseUint` stops. */
  datatype Scan = Scanned(n: nat) | SyntaxError | RangeError

  predicate IsDigit(c: char) { '0' <= c <= '9' }

  function DigitValue(c: char): nat
    requires IsDigit(c)
  {
    (c as int) - ('0' as int)
  }

  function DigitChar(d: nat): (c: char)
    requires d < 10
    ensures IsDigit(c) && DigitValue(c) == d
  {
    (('0' as int) + d) as char
  }

  predicate AllDigits(s: string) {
    forall i :: 0 <= i < |s| ==> IsDigit(s[i])
  }

  /** The value of a string of decimal digits, most significant first. */
  function DigitsValue(s: string): nat
    requires AllDigits(s)
  {
    if |s| == 0 then 0 else DigitsValue(s[..|s| - 1]) * 10 + DigitValue(s[|s| - 1])
  }

  /**
   * Go's accumulation loop: a non-digit is a syntax error, and the scan stops
   * with a range error as soon as the accumulated value leaves the uint64 range
   * (so an over-long prefix wins over a later non-digit).
   */
  function ScanUint(s: string, acc: nat): Scan
    decreases |s|
  {
    if |s| == 0 then Scanned(acc)
    else if !IsDigit(s[0]) then SyntaxError
    else if acc * 10 + DigitValue(s[0]) > MaxUint64 then RangeError
    else ScanUint(s[1..], acc * 10 + DigitValue(s[0]))
  }

  /** `strconv.Atoi(s)` as the pair `(value, err == nil)`. */
  function Atoi(s: string): Parsed {
    if |s| == 0 then Parsed(0, false)
    else
      var neg := s[0] == '-';
      var body := if s[0] == '-' || s[0] == '+' then s[1..] else s;
      if |body| == 0 then Parsed(0, false)
      else match ScanUint(body, 0)
        case SyntaxError => Parsed(0, false)
        case RangeError => if neg then Parsed(MinInt64, false) else Parsed(MaxInt64, false)
        case Scanned(n) =>
          if !neg && n > MaxInt64 then Parsed(MaxInt64, false)
          else if neg && n > -MinInt64 then Parsed(MinInt64, false)
          else Parsed(if neg then -(n as int) else n as int, true)
  }

  /** `v, _ := strconv.Atoi(s)`: the value kept when the error is ignored. */
  function AtoiOrZero(s: string): int {
    Atoi(s).value
  }

  /** The decimal digits of a natural number, without leading zeros. */
  function NatToString(n: nat): (s: string)
    ensures |s| > 0 && AllDigits(s)
  {
    if n < 10 then [DigitChar(n)] else NatToString(n / 10) + [DigitChar(n % 10)]
  }

  /** `strconv.Itoa(n)`. */
  function Itoa(n: int): string {
    if n < 0 then "-" + NatToString(-n) else NatToString(n)
  }

  /** Scanning a concatenation scans the first part, then the second from where it stopped. */
  lemma {:induction false} ScanAppend(a: string, b: string, acc: nat)
    ensures ScanUint(a + b, acc) ==
            match ScanUint(a, acc)
            case Scanned(m) => ScanUint(b, m)
            case SyntaxError => SyntaxError
            case RangeError => RangeError
    decreases |a|
  {
    if |a| == 0 {
      assert a + b == b;
    } else {
      assert (a + b)[0] == a[0];
      assert (a + b)[1..] == a[1..] + b;
      if IsDigit(a[0]) && acc * 10 + DigitValue(a[0]) <= MaxUint64 {
        ScanAppend(a[1..], b, acc * 10 + DigitValue(a[0]));
      }
    }
  }

  /** The digits Itoa prints scan back to the number, for every uint64 value. */
  lemma {:induction false} ScanNatToString(n: nat)
    requires n <= MaxUint64
    ensures ScanUint(NatToString(n), 0) == Scanned(n)
  {
    var d := DigitChar(n % 10);
    if n < 10 {
      assert ScanUint([d][1..], n) == Scanned(n);
    } else {
      ScanNatToString(n / 10);
      ScanAppend(NatToString(n / 10), [d], 0);
      assert ScanUint([d][1..], n) == Scanned(n);
    }
  }

  /** Round trip: Atoi reads back exactly what Itoa printed, for every int64. */
  lemma ItoaAtoiRoundTrip(n: int)
    requires MinInt64 <= n <= MaxInt64
    ensures Atoi(Itoa(n)) == Parsed(n, true)
  {
    var s := Itoa(n);
    if n < 0 {
      ScanNatToString(-n);
      assert s[1..] == NatToString(-n);
    } else {
      ScanNatToString(n);
    }
  }

  /** A failed parse returns 0 or one of the int64 bounds, never anything else. */
  lemma AtoiFailureValue(s: string)
    ensures !Atoi(s).ok ==> Atoi(s).value in {0, MaxInt64, MinInt64}
    ensures Atoi(s).ok ==> MinInt64 <= Atoi(s).value <= MaxInt64
  {
  }

  /** A scan succeeds exactly on all-digit strings whose value fits in uint64, and then yields that value. */
  lemma {:induction false} ScanUintSpec(s: string, acc: nat)
    requires acc <= MaxUint64
    ensures ScanUint(s, acc).Scanned? <==> AllDigits(s) && acc * Pow10(|s|) + DigitsValue(s) <= MaxUint64
    ensures ScanUint(s, acc).Scanned? ==> ScanUint(s, acc).n == acc * Pow10(|s|) + DigitsValue(s)
    decreases |s|
  {
    if |s| > 0 && IsDigit(s[0]) {
      var acc' := acc * 10 + DigitValue(s[0]);
      assert AllDigits(s) <==> AllDigits(s[1..]);
      if AllDigits(s) {
        ShiftValue(acc, s);
      }
      if acc' <= MaxUint64 {
        ScanUintSpec(s[1..], acc');
      } else if AllDigits(s) {
        Pow10Positive(|s| - 1);
        MulMonotone(acc', Pow10(|s| - 1));
      }
    }
  }

  /** Consuming the leading digit moves it from the string into the accumulator. */
  lemma ShiftValue(acc: nat, s: string)
    requires |s| > 0 && AllDigits(s)
    ensures acc * Pow10(|s|) + DigitsValue(s) ==
            (acc * 10 + DigitValue(s[0])) * Pow10(|s| - 1) + DigitsValue(s[1..])
  {
    var tail := s[1..];
    assert AllDigits(tail) by { assert forall i :: 0 <= i < |tail| ==> tail[i] == s[i + 1]; }
    var p := Pow10(|s| - 1);
    assert Pow10(|s|) == 10 * p;
    DigitsValueFront(s);
    ShiftArith(acc, DigitValue(s[0]), p, DigitsValue(tail), DigitsValue(s), Pow10(|s|));
  }

  /** The arithmetic of `ShiftValue`, over plain numbers. */
  lemma ShiftArith(acc: int, d: int, p: int, rest: int, total: int, p10: int)
    requires p10 == 10 * p && total == d * p + rest
    ensures acc * p10 + total == (acc * 10 + d) * p + rest
  {
    calc {
      acc * p10 + total;
      acc * (10 * p) + d * p + rest;
      { assert acc * (10 * p) == (acc * 10) * p; }
      (acc * 10) * p + d * p + rest;
      (acc * 10 + d) * p + rest;
    }
  }

  lemma MulMonotone(a: nat, p: nat)
    requires p >= 1
    ensures a * p >= a
  {
  }

  function Pow10(k: nat): nat {
    if k == 0 then 1 else 10 * Pow10(k - 1)
  }

  lemma {:induction false} Pow10Positive(k: nat)
    ensures Pow10(k) >= 1
  {
    if k > 0 { Pow10Positive(k - 1); }
  }

  /** Reading the digits from the front gives the same value as from the back. */
  lemma {:induction false} DigitsValueFront(s: string)
    requires |s| > 0 && AllDigits(s)
    ensures DigitsValue(s) == DigitValue(s[0]) * Pow10(|s| - 1) + DigitsValue(s[1..])
    decreases |s|
  {
    if |s| > 1 {
      var init := s[..|s| - 1];
      FrontSlices(s);
      DigitsValueFront(init);
      assert Pow10(|s| - 1) == 10 * Pow10(|s| - 2);
      FrontArith(DigitValue(s[0]), Pow10(|s| - 2), DigitsValue(init[1..]), DigitValue(s[|s| - 1]));
    } else {
      assert s[1..] == [];
    }
  }

  /** Dropping the last digit, and dropping the first, of a string of at least two digits. */
  lemma FrontSlices(s: string)
    requires |s| > 1 && AllDigits(s)
    ensures AllDigits(s[..|s| - 1]) && AllDigits(s[1..])
    ensures s[..|s| - 1][0] == s[0] && s[..|s| - 1][1..] == s[1..][..|s| - 2]
    ensures DigitsValue(s) == DigitsValue(s[..|s| - 1]) * 10 + DigitValue(s[|s| - 1])
    ensures DigitsValue(s[1..]) == DigitsValue(s[..|s| - 1][1..]) * 10 + DigitValue(s[|s| - 1])
  {
    var init, tail := s[..|s| - 1], s[1..];
    assert forall i :: 0 <= i < |init| ==> init[i] == s[i];
    assert forall i :: 0 <= i < |tail| ==> tail[i] == s[i + 1];
    assert init[1..] == tail[..|tail| - 1];
    assert tail[|tail| - 1] == s[|s| - 1];
  }

  /** The arithmetic of `DigitsValueFront`, over plain numbers. */
  lemma FrontArith(d: int, p: int, mid: int, last: int)
    ensures (d * p + mid) * 10 + last == d * (10 * p) + (mid * 10 + last)
  {
    assert (d * p) * 10 == d * (10 * p);
  }

  /** Atoi succeeds exactly on an optional sign followed by digits whose value fits in int64. */
  lemma AtoiOkIff(s: string)
    ensures Atoi(s).ok <==> IsDecimal(s) && MinInt64 <= DecimalValue(s) <= MaxInt64
    ensures Atoi(s).ok ==> Atoi(s).value == DecimalValue(s)
  {
    if |s| > 0 {
      var body := if s[0] == '-' || s[0] == '+' then s[1..] else s;
      if |body| > 0 {
        ScanUintSpec(body, 0);
        if AllDigits(body) {
          Pow10Positive(|body|);
        }
      }
    }
  }

  /** A digit run too short to overflow that hits a non-digit is a syntax error. */
  lemma {:induction false} ScanShortSyntaxError(s: string, acc: nat)
    requires |s| <= 19 && !AllDigits(s)
    requires acc < Pow10(19 - |s|)
    ensures ScanUint(s, acc) == SyntaxError
    decreases |s|
  {
    if IsDigit(s[0]) {
      var acc' := acc * 10 + DigitValue(s[0]);
      assert Pow10(19 - |s| + 1) == 10 * Pow10(19 - |s|);
      Pow10Bound(19 - |s| + 1);
      assert !AllDigits(s[1..]) by {
        var i :| 0 <= i < |s| && !IsDigit(s[i]);
        assert i > 0 && s[1..][i - 1] == s[i];
      }
      ScanShortSyntaxError(s[1..], acc');
    }
  }

  lemma {:induction false} Pow10Bound(k: nat)
    requires k <= 19
    ensures Pow10(k) <= 10_000_000_000_000_000_000
    decreases 19 - k
  {
    if k < 19 {
      Pow10Bound(k + 1);
      Pow10Positive(k);
    } else {
      assert Pow10(10) == 10_000_000_000;
      assert Pow10(19) == 10_000_000_000_000_000_000;
    }
  }

  /** Malformed text short enough not to overflow reads as 0 with an error: the parse-or-zero default. */
  lemma AtoiMalformedIsZero(s: string)
    requires |s| <= 19 && !IsDecimal(s)
    ensures Atoi(s) == Parsed(0, false)
  {
    if |s| > 0 {
      var body := if s[0] == '-' || s[0] == '+' then s[1..] else s;
      if |body| > 0 {
        Pow10Positive(19 - |body|);
        ScanShortSyntaxError(body, 0);
      }
    }
  }

  /** An optional `+` or `-`, then at least one decimal digit. */
  predicate IsDecimal(s: string) {
    |s| > 0 &&
    var body := if s[0] == '-' || s[0] == '+' then s[1..] else s;
    |body| > 0 && AllDigits(body)
  }

  /** The mathematical value of a decimal string. */
  function DecimalValue(s: string): int
    requires IsDecimal(s)
  {
    if s[0] == '-' then -(DigitsValue(s[1..]) as int)
    else if s[0] == '+' then DigitsValue(s[1..])
    else DigitsValue(s)
  }
}

/**
 * Decimal text to integers, as `main` reads the account's `sequence` and
 * `account_number`: Rust's `str::parse::<i64>()`, then `unwrap`, then the
 * wrapping cast `as u64`. `ShowI64` (decimal display of an `i64`) is the
 * reference the parser is checked against.
 */
module Decimal {
  import opened Wrappers

  const I64Min: int := -0x8000_0000_0000_0000
  const I64Max: int := 0x7FFF_FFFF_FFFF_FFFF
  const U64Modulus: int := 0x1_0000_0000_0000_0000

  predicate InI64(v: int) { I64Min <= v <= I64Max }

  /** The kinds of `ParseIntError` that `i64::from_str` reports. */
  datatype ParseIntError = Empty | InvalidDigit | PosOverflow | NegOverflow

  predicate IsDigit(ch: char) { '0' <= ch <= '9' }

  function DigitValue(ch: char): (d: nat)
    requires IsDigit(ch)
    ensures d < 10
  {
    ch as int - '0' as int
  }

  predicate AllDigits(s: string) { forall i :: 0 <= i < |s| ==> IsDigit(s[i]) }

  /**
   * The digit loop of `from_str_radix`: left to right, multiply by ten and
   * add (or, for a negative number, subtract) the digit, failing on the
   * first non-digit or on the first step that leaves the `i64` range.
   */
  function Accumulate(ds: string, acc: int, positive: bool): (r: Result<int, ParseIntError>)
    requires InI64(acc)
    ensures r.Success? ==> InI64(r.value) && AllDigits(ds)
    ensures r.Success? && positive && acc >= 0 ==> r.value >= 0
    ensures r.Success? && !positive && acc <= 0 ==> r.value <= 0
    decreases |ds|
  {
    if ds == [] then Success(acc)
    else if !IsDigit(ds[0]) then Failure(InvalidDigit)
    else
      var next := if positive then acc * 10 + DigitValue(ds[0]) else acc * 10 - DigitValue(ds[0]);
      if next > I64Max then Failure(PosOverflow)
      else if next < I64Min then Failure(NegOverflow)
      else
        var r := Accumulate(ds[1..], next, positive);
        assert r.Success? ==> AllDigits(ds) by {
          if r.Success? {
            forall i | 0 <= i < |ds| ensures IsDigit(ds[i]) {
              if i > 0 { assert ds[i] == ds[1..][i - 1]; }
            }
          }
        }
        r
  }

  /** `s.parse::<i64>()`: an optional `+` or `-`, then at least one digit. */
  function ParseI64(s: string): (r: Result<int, ParseIntError>)
    ensures r.Success? ==> InI64(r.value)
    ensures s == [] ==> r == Failure(Empty)
  {
    if s == [] then Failure(Empty)
    else if (s[0] == '+' || s[0] == '-') && |s| == 1 then Failure(InvalidDigit)
    else if s[0] == '+' then Accumulate(s[1..], 0, true)
    else if s[0] == '-' then Accumulate(s[1..], 0, false)
    else Accumulate(s, 0, true)
  }

  /** `v as u64` for an `i64` value: two's-complement reinterpretation, i.e. v mod 2^64. */
  function AsU64(v: int): (r: nat)
    ensures r < U64Modulus
    ensures (r - v) % U64Modulus == 0
    ensures v >= 0 && v < U64Modulus ==> r == v
  {
    v % U64Modulus
  }

  /** The cast loses nothing: distinct `i64` values give distinct `u64` values. */
  lemma AsU64Injective(a: int, b: int)
    requires InI64(a) && InI64(b)
    ensures AsU64(a) == AsU64(b) ==> a == b
  {
  }

  /** A negative value wraps around to the top of the `u64` range. */
  lemma AsU64Negative(v: int)
    requires I64Min <= v < 0
    ensures AsU64(v) == v + U64Modulus
    ensures AsU64(v) > I64Max
  {
  }

  /**
   * An account field as `main` reads it: `parse::<i64>().unwrap() as u64`.
   * `None` stands for the panic of `unwrap` on a parse error.
   */
  function ParseAccountField(s: string): (r: Option<nat>)
    ensures r.Some? <==> ParseI64(s).Success?
    ensures r.Some? ==> r.value < U64Modulus && (r.value - ParseI64(s).value) % U64Modulus == 0
  {
    match ParseI64(s)
    case Success(v) => Some(AsU64(v))
    case Failure(_) => None
  }

  // ---------------------------------------------------------------------
  // Reference meaning of decimal text, and the proof that the parser
  // computes it.
  // ---------------------------------------------------------------------

  /** The number a string of digits denotes, read from its last digit. */
  function DigitsValue(ds: string): nat
    requires AllDigits(ds)
  {
    if ds == [] then 0
    else DigitsValue(ds[..|ds| - 1]) * 10 + DigitValue(ds[|ds| - 1])
  }

  /** Text `i64::from_str` accepts, apart from its range. */
  predicate WellFormed(s: string)
  {
    && s != []
    && if s[0] == '+' || s[0] == '-' then |s| >= 2 && AllDigits(s[1..]) else AllDigits(s)
  }

  function SignedValue(s: string): int
    requires WellFormed(s)
  {
    if s[0] == '-' then -(DigitsValue(s[1..]) as int)
    else if s[0] == '+' then DigitsValue(s[1..])
    else DigitsValue(s)
  }

  /** The digit loop without the range check. */
  function Combine(acc: int, ds: string, positive: bool): int
    requires AllDigits(ds)
    decreases |ds|
  {
    if ds == [] then acc
    else Combine(if positive then acc * 10 + DigitValue(ds[0]) else acc * 10 - DigitValue(ds[0]),
                 ds[1..], positive)
  }

  lemma {:induction false} CombineNegates(acc: int, ds: string)
    requires AllDigits(ds)
    ensures Combine(-acc, ds, false) == -Combine(acc, ds, true)
    decreases |ds|
  {
    if ds != [] {
      CombineNegates(acc * 10 + DigitValue(ds[0]), ds[1..]);
    }
  }

  /** Without the range check the magnitude only grows. */
  lemma {:induction false} CombineMonotone(acc: int, ds: string)
    requires AllDigits(ds) && acc >= 0
    ensures Combine(acc, ds, true) >= acc
    decreases |ds|
  {
    if ds != [] {
      CombineMonotone(acc * 10 + DigitValue(ds[0]), ds[1..]);
    }
  }

  lemma {:induction false} CombineAppend(acc: int, xs: string, ch: char)
    requires AllDigits(xs) && IsDigit(ch)
    ensures AllDigits(xs + [ch])
    ensures Combine(acc, xs + [ch], true) == Combine(acc, xs, true) * 10 + DigitValue(ch)
    decreases |xs|
  {
    if xs == [] {
      assert xs + [ch] == [ch];
    } else {
      assert (xs + [ch])[1..] == xs[1..] + [ch];
      CombineAppend(acc * 10 + DigitValue(xs[0]), xs[1..], ch);
    }
  }

  lemma {:induction false} CombineIsValue(ds: string)
    requires AllDigits(ds)
    ensures Combine(0, ds, true) == DigitsValue(ds)
    decreases |ds|
  {
    if ds != [] {
      var init := ds[..|ds| - 1];
      CombineIsValue(init);
      CombineAppend(0, init, ds[|ds| - 1]);
      assert init + [ds[|ds| - 1]] == ds;
    }
  }

  /** The digit loop fails exactly when the unchecked result leaves the range. */
  lemma {:induction false} AccumulateIsCombine(ds: string, acc: int)
    requires AllDigits(ds) && 0 <= acc <= I64Max
    ensures Accumulate(ds, acc, true) ==
              if Combine(acc, ds, true) <= I64Max then Success(Combine(acc, ds, true))
              else Failure(PosOverflow)
    decreases |ds|
  {
    if ds != [] {
      var next := acc * 10 + DigitValue(ds[0]);
      CombineMonotone(next, ds[1..]);
      if next <= I64Max {
        AccumulateIsCombine(ds[1..], next);
      }
    }
  }

  lemma {:induction false} AccumulateIsCombineNegative(ds: string, acc: int)
    requires AllDigits(ds) && I64Min <= acc <= 0
    ensures Accumulate(ds, acc, false) ==
              if Combine(acc, ds, false) >= I64Min then Success(Combine(acc, ds, false))
              else Failure(NegOverflow)
    decreases |ds|
  {
    if ds != [] {
      var next := acc * 10 - DigitValue(ds[0]);
      CombineNegates(-next, ds[1..]);
      CombineMonotone(-next, ds[1..]);
      if next >= I64Min {
        AccumulateIsCombineNegative(ds[1..], next);
      }
    }
  }

  /**
   * `parse::<i64>()` succeeds exactly on well-formed text whose value lies
   * in the `i64` range, and then returns that value.
   */
  lemma ParseI64Meaning(s: string)
    ensures ParseI64(s).Success? <==> WellFormed(s) && InI64(SignedValue(s))
    ensures ParseI64(s).Success? ==> ParseI64(s).value == SignedValue(s)
  {
    if s != [] && !(|s| == 1 && (s[0] == '+' || s[0] == '-')) {
      var signed := s[0] == '+' || s[0] == '-';
      var ds := if signed then s[1..] else s;
      if AllDigits(ds) {
        CombineIsValue(ds);
        if s[0] == '-' {
          CombineNegates(0, ds);
          AccumulateIsCombineNegative(ds, 0);
        } else {
          AccumulateIsCombine(ds, 0);
        }
      }
    }
  }

  // ---------------------------------------------------------------------
  // Decimal display, the partner of the parser.
  // ---------------------------------------------------------------------

  function DigitChar(d: nat): (ch: char)
    requires d < 10
    ensures IsDigit(ch) && DigitValue(ch) == d
  {
    ('0' as int + d) as char
  }

  /** The shortest decimal text of `n`. */
  function ToDecimal(n: nat): (s: string)
    ensures s != [] && AllDigits(s)
  {
    if n < 10 then [DigitChar(n)] else ToDecimal(n / 10) + [DigitChar(n % 10)]
  }

  lemma {:induction false} ToDecimalValue(n: nat)
    ensures DigitsValue(ToDecimal(n)) == n
  {
    if n >= 10 {
      var s := ToDecimal(n);
      ToDecimalValue(n / 10);
      assert s[..|s| - 1] == ToDecimal(n / 10);
    }
  }

  /** Display of an `i64`: a `-` for negative values, then the digits. */
  function ShowI64(v: int): (s: string)
    ensures WellFormed(s)
  {
    if v < 0 then "-" + ToDecimal(-v) else ToDecimal(v)
  }

  lemma ParseShowI64(v: int)
    requires InI64(v)
    ensures ParseI64(ShowI64(v)) == Success(v)
  {
    var s := ShowI64(v);
    ParseI64Meaning(s);
    if v < 0 {
      assert s[1..] == ToDecimal(-v);
      ToDecimalValue(-v);
    } else {
      ToDecimalValue(v);
    }
  }

  /** Examples: "7" reads as 7; "-1" wraps to 2^64 - 1; text that is not a number panics. */
  lemma AccountFieldExamples()
    ensures ParseAccountField("7") == Some(7)
    ensures ParseAccountField("-1") == Some(U64Modulus - 1)
    ensures ParseAccountField("seven") == None
    ensures ParseAccountField("") == None
    ensures ParseAccountField("+") == None
  {
  }

  /** A `u64` above the `i64` range is rejected by the `i64` parse, so `main` panics on it. */
  lemma LargeU64Rejected()
    ensures ParseAccountField(ShowI64(I64Max + 1)) == None
  {
    ParseI64Meaning(ShowI64(I64Max + 1));
    ToDecimalValue(I64Max + 1);
  }
}

/** The decimal parsing that the map loader relies on: `strconv.ParseUint`
    in base 10 and `strconv.Atoi`, with the error each reports, and the
    shortest decimal form of a number as their inverse. */
module Decimal {

  import opened Outcomes

  predicate IsDigit(ch: char)
  {
    '0' <= ch <= '9'
  }

  function DigitValue(ch: char): (d: nat)
    requires IsDigit(ch)
    ensures d < 10
  {
    (ch as int) - ('0' as int)
  }

  function DigitChar(d: nat): (ch: char)
    requires d < 10
    ensures IsDigit(ch) && DigitValue(ch) == d
  {
    (('0' as int) + d) as char
  }

  predicate AllDigits(s: string)
  {
    forall i :: 0 <= i < |s| ==> IsDigit(s[i])
  }

  /** The number a string of digits denotes, most significant digit first. */
  function Value(s: string): nat
    requires AllDigits(s)
  {
    if |s| == 0 then 0 else Value(s[..|s| - 1]) * 10 + DigitValue(s[|s| - 1])
  }

  const MaxUint32: nat := 0xFFFF_FFFF
  const MaxUint64: nat := 0xFFFF_FFFF_FFFF_FFFF
  const MaxInt64: nat := 0x7FFF_FFFF_FFFF_FFFF

  /** `strconv.ErrSyntax` or `strconv.ErrRange`. */
  datatype Failure = Syntax | Range

  /** `strconv.NumError`: the function, its input and the failure. */
  datatype NumError = NumError(func: string, input: string, failure: Failure)

  /** The text `log.Fatal` prints for a number error (the input is shown
      between plain quotes; Go's escaping of unusual characters is not
      modelled). */
  function ErrorText(e: NumError): string
  {
    "strconv." + e.func + ": parsing \"" + e.input + "\": "
      + (match e.failure case Syntax => "invalid syntax" case Range => "value out of range")
  }

  /** The digit loop of `ParseUint` in base 10 from index `i`, with `n` the
      value so far: a character that is not a digit is a syntax error, and
      a digit that takes the value past `max` is a range error, whichever
      comes first. */
  function ScanFrom(s: string, i: nat, n: nat, max: nat): (r: Result<nat, Failure>)
    requires i <= |s| && n <= max
    decreases |s| - i
    ensures r.Ok? ==> n <= r.value <= max
  {
    if i == |s| then Ok(n)
    else if !IsDigit(s[i]) then Err(Syntax)
    else if n * 10 + DigitValue(s[i]) > max then Err(Range)
    else ScanFrom(s, i + 1, n * 10 + DigitValue(s[i]), max)
  }

  lemma DigitsExtend(s: string, i: nat)
    requires i < |s| && AllDigits(s[..i]) && IsDigit(s[i])
    ensures AllDigits(s[..i + 1])
  {
    assert s[..i + 1] == s[..i] + [s[i]];
  }

  lemma ValuePrefixStep(s: string, i: nat)
    requires i < |s| && AllDigits(s[..i + 1])
    ensures AllDigits(s[..i]) && Value(s[..i + 1]) == Value(s[..i]) * 10 + DigitValue(s[i])
  {
    assert s[..i + 1][..i] == s[..i];
  }

  /** A digit string's prefixes never have a larger value than the whole. */
  lemma {:induction false} ValuePrefixMonotone(s: string, i: nat)
    requires i <= |s| && AllDigits(s)
    ensures AllDigits(s[..i]) && Value(s[..i]) <= Value(s)
    decreases |s| - i
  {
    assert AllDigits(s[..i]) by {
      forall k | 0 <= k < i ensures IsDigit(s[..i][k]) { assert s[..i][k] == s[k]; }
    }
    if i < |s| {
      ValuePrefixMonotone(s, i + 1);
      ValuePrefixStep(s, i);
    } else {
      assert s[..i] == s;
    }
  }

  /** The loop computes `Value`: it succeeds exactly on all-digit input whose
      value fits below `max`, and its result is that value. */
  lemma {:induction false} ScanFromValue(s: string, i: nat, n: nat, max: nat)
    requires i <= |s| && n <= max
    requires AllDigits(s[..i]) && n == Value(s[..i])
    ensures ScanFrom(s, i, n, max).Ok? <==> AllDigits(s) && Value(s) <= max
    ensures ScanFrom(s, i, n, max).Ok? ==> ScanFrom(s, i, n, max).value == Value(s)
    decreases |s| - i
  {
    if i == |s| {
      assert s[..i] == s;
    } else if !IsDigit(s[i]) {
      assert !AllDigits(s);
    } else {
      DigitsExtend(s, i);
      ValuePrefixStep(s, i);
      if n * 10 + DigitValue(s[i]) > max {
        if AllDigits(s) {
          ValuePrefixMonotone(s, i + 1);
        }
      } else {
        ScanFromValue(s, i + 1, n * 10 + DigitValue(s[i]), max);
      }
    }
  }

  /** `strconv.ParseUint(s, 10, bits)` with `max` = 2^bits - 1: the empty
      string is a syntax error, then the digit loop decides. */
  function ParseUint(s: string, max: nat): (r: Result<nat, NumError>)
    ensures r.Ok? <==> |s| > 0 && AllDigits(s) && Value(s) <= max
    ensures r.Ok? ==> r.value == Value(s)
    ensures r.Err? ==> r.error.func == "ParseUint" && r.error.input == s
    ensures |s| > 0 && AllDigits(s) && Value(s) > max ==> r == Err(NumError("ParseUint", s, Range))
  {
    ScanFromValue(s, 0, 0, max);
    assert s[..0] == [];
    if |s| == 0 then Err(NumError("ParseUint", s, Syntax))
    else
      match ScanFrom(s, 0, 0, max)
      case Ok(v) => Ok(v)
      case Err(f) =>
        assert !AllDigits(s) || Value(s) > max;
        if AllDigits(s) then
          ScanFromRangeOnly(s, 0, 0, max);
          assert f == Range;
          Err(NumError("ParseUint", s, f))
        else Err(NumError("ParseUint", s, f))
  }

  /** On all-digit input the loop can only fail with a range error. */
  lemma {:induction false} ScanFromRangeOnly(s: string, i: nat, n: nat, max: nat)
    requires i <= |s| && n <= max && AllDigits(s)
    ensures ScanFrom(s, i, n, max) != Err(Syntax)
    decreases |s| - i
  {
    if i < |s| && n * 10 + DigitValue(s[i]) <= max {
      ScanFromRangeOnly(s, i + 1, n * 10 + DigitValue(s[i]), max);
    }
  }

  /** A field with a character that is not a digit, before any prefix
      overflows, is a syntax error. */
  lemma {:induction false} NonDigitIsSyntaxError(s: string, k: nat, max: nat)
    requires k < |s| && AllDigits(s[..k]) && !IsDigit(s[k]) && Value(s[..k]) <= max
    ensures ParseUint(s, max) == Err(NumError("ParseUint", s, Syntax))
  {
    ScanToNonDigit(s, 0, 0, k, max);
  }

  lemma {:induction false} ScanToNonDigit(s: string, i: nat, n: nat, k: nat, max: nat)
    requires i <= k < |s| && n <= max
    requires AllDigits(s[..k]) && !IsDigit(s[k]) && Value(s[..k]) <= max
    requires AllDigits(s[..i]) && n == Value(s[..i])
    ensures ScanFrom(s, i, n, max) == Err(Syntax)
    decreases |s| - i
  {
    if i < k {
      assert s[..k][..i + 1] == s[..i + 1];
      ValuePrefixMonotone(s[..k], i + 1);
      ValuePrefixStep(s, i);
      ValuePrefixMonotone(s[..k], i + 1);
      ScanToNonDigit(s, i + 1, n * 10 + DigitValue(s[i]), k, max);
    }
  }

  /** `strconv.FormatUint(n, 10)`: the shortest decimal form. */
  function Format(n: nat): (s: string)
    ensures |s| > 0 && AllDigits(s)
    ensures |s| > 1 ==> s[0] != '0'
    decreases n
  {
    if n < 10 then [DigitChar(n)] else Format(n / 10) + [DigitChar(n % 10)]
  }

  /** Parsing undoes formatting. */
  lemma {:induction false} ValueOfFormat(n: nat)
    ensures Value(Format(n)) == n
    decreases n
  {
    var s := Format(n);
    if n >= 10 {
      ValueOfFormat(n / 10);
      assert s[..|s| - 1] == Format(n / 10);
    }
  }

  /** `strconv.Atoi` on a 64-bit platform: an optional sign, then digits,
      with the magnitude limited to the range of `int`. */
  function Atoi(s: string): (r: Result<int, NumError>)
    ensures r.Ok? <==> (var d := Unsigned(s); |d| > 0 && AllDigits(d) && Value(d) <= Limit(s))
    ensures r.Ok? ==> r.value == (if Negative(s) then -(Value(Unsigned(s)) as int) else Value(Unsigned(s)))
    ensures r.Err? ==> r.error.func == "Atoi" && r.error.input == s
  {
    var d := Unsigned(s);
    ScanFromValue(d, 0, 0, MaxUint64);
    assert d[..0] == [];
    if |d| == 0 then Err(NumError("Atoi", s, Syntax))
    else
      match ScanFrom(d, 0, 0, MaxUint64)
      case Err(f) => Err(NumError("Atoi", s, f))
      case Ok(u) =>
        if u > Limit(s) then Err(NumError("Atoi", s, Range))
        else Ok(if Negative(s) then -(u as int) else u)
  }

  predicate Negative(s: string)
  {
    |s| > 0 && s[0] == '-'
  }

  /** The input without its sign, if it has one. */
  function Unsigned(s: string): string
  {
    if |s| > 0 && (s[0] == '-' || s[0] == '+') then s[1..] else s
  }

  /** The largest magnitude `int` can hold with the input's sign. */
  function Limit(s: string): nat
  {
    if Negative(s) then MaxInt64 + 1 else MaxInt64
  }
}

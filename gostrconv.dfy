/** Go's `strconv.Atoi` and `strconv.Itoa` on a 64-bit `int`, and the
    wrap-around of Go's `int` addition. The model follows the standard
    library's slow path (`ParseInt` over `ParseUint`), which returns the same
    values as Atoi's fast path on every input the fast path accepts. */
module GoStrconv {

  const MaxInt64: int := 0x7fff_ffff_ffff_ffff
  const MinInt64: int := -0x8000_0000_0000_0000
  const MaxUint64: int := 0xffff_ffff_ffff_ffff
  /** The smallest n with n * 10 > MaxUint64, as ParseUint computes it. */
  const Cutoff: int := MaxUint64 / 10 + 1

  predicate IsInt64(x: int) {
    MinInt64 <= x <= MaxInt64
  }

  predicate IsDigit(c: char) {
    '0' <= c <= '9'
  }

  function DigitValue(c: char): nat
    requires IsDigit(c)
  {
    c as int - '0' as int
  }

  function DigitChar(d: nat): (c: char)
    requires d < 10
    ensures IsDigit(c) && DigitValue(c) == d
  {
    ('0' as int + d) as char
  }

  predicate AllDigits(s: string) {
    forall i :: 0 <= i < |s| ==> IsDigit(s[i])
  }

  /** The decimal value of a string of digits (most significant first). */
  function DecValue(s: string): nat
    requires AllDigits(s)
  {
    if s == [] then 0 else DecValue(s[..|s| - 1]) * 10 + DigitValue(s[|s| - 1])
  }

  function Pow10(k: nat): nat {
    if k == 0 then 1 else 10 * Pow10(k - 1)
  }

  /** State of ParseUint's digit loop. */
  datatype Scan = Value(n: nat) | SyntaxError | RangeError

  /** One iteration of ParseUint's loop: a non-digit is a syntax error; an
      accumulator at or above the cutoff, or a sum above MaxUint64, is a range
      error reported at once, before the rest of the input is looked at. */
  function Step(st: Scan, c: char): Scan {
    match st
    case Value(n) =>
      if !IsDigit(c) then SyntaxError
      else if n >= Cutoff then RangeError
      else if n * 10 + DigitValue(c) > MaxUint64 then RangeError
      else Value(n * 10 + DigitValue(c))
    case _ => st
  }

  /** ParseUint's loop run over `s`, left to right. */
  function ScanDigits(s: string): Scan {
    if s == [] then Value(0) else Step(ScanDigits(s[..|s| - 1]), s[|s| - 1])
  }

  function ParseUint(s: string): Scan {
    if s == [] then SyntaxError else ScanDigits(s)
  }

  /** `strconv.Atoi(s)`'s integer result; the error is dropped by every caller
      in this model. A syntax error yields 0, a range error the clamped bound. */
  function Atoi(s: string): int {
    if s == [] then 0
    else
      var neg := s[0] == '-';
      var digits := if s[0] == '-' || s[0] == '+' then s[1..] else s;
      match ParseUint(digits)
      case SyntaxError => 0
      case RangeError => if neg then MinInt64 else MaxInt64
      case Value(u) =>
        if !neg && u > MaxInt64 then MaxInt64
        else if neg && u > -MinInt64 then MinInt64
        else if neg then -(u as int)
        else u
  }

  /** Decimal digits of a natural number, without leading zeros. */
  function NatToDec(n: nat): (s: string)
    ensures s != [] && AllDigits(s)
  {
    if n < 10 then [DigitChar(n)] else NatToDec(n / 10) + [DigitChar(n % 10)]
  }

  /** `strconv.Itoa`. */
  function Itoa(x: int): string {
    if x < 0 then "-" + NatToDec(-x) else NatToDec(x)
  }

  /** Go's 64-bit two's-complement `int` arithmetic: x reduced into int64. */
  function Wrap64(x: int): (r: int)
    ensures IsInt64(r)
    ensures IsInt64(x) ==> r == x
    ensures (r - x) % 0x1_0000_0000_0000_0000 == 0
  {
    (x - MinInt64) % 0x1_0000_0000_0000_0000 + MinInt64
  }

  /** A decimal numeral as Atoi accepts it: an optional sign, then at least one digit. */
  predicate IsNumeral(s: string) {
    var digits := if |s| > 0 && (s[0] == '-' || s[0] == '+') then s[1..] else s;
    digits != [] && AllDigits(digits)
  }

  /** The mathematical value of a numeral. */
  function NumeralValue(s: string): int
    requires IsNumeral(s)
  {
    if s[0] == '-' then -(DecValue(s[1..]) as int)
    else if s[0] == '+' then DecValue(s[1..])
    else DecValue(s)
  }

  function Clamp64(x: int): (r: int)
    ensures IsInt64(r)
    ensures IsInt64(x) ==> r == x
  {
    if x > MaxInt64 then MaxInt64 else if x < MinInt64 then MinInt64 else x
  }

  lemma {:induction false} DecValueOfNatToDec(n: nat)
    ensures DecValue(NatToDec(n)) == n
  {
    if n >= 10 {
      var s := NatToDec(n);
      assert s[..|s| - 1] == NatToDec(n / 10);
      DecValueOfNatToDec(n / 10);
    }
  }

  lemma {:induction false} DecValueBound(s: string)
    requires AllDigits(s)
    ensures DecValue(s) < Pow10(|s|)
  {
    if s != [] {
      DecValueBound(s[..|s| - 1]);
    }
  }

  /** A digit string whose value fits in 64 bits scans to that value. */
  lemma {:induction false} ScanDigitsInRange(s: string)
    requires AllDigits(s) && DecValue(s) <= MaxUint64
    ensures ScanDigits(s) == Value(DecValue(s))
  {
    if s != [] {
      var init := s[..|s| - 1];
      assert AllDigits(init);
      ScanDigitsInRange(init);
    }
  }

  /** A digit string whose value exceeds 64 bits is a range error. */
  lemma {:induction false} ScanDigitsOverflow(s: string)
    requires AllDigits(s) && DecValue(s) > MaxUint64
    ensures ScanDigits(s) == RangeError
  {
    var init := s[..|s| - 1];
    assert AllDigits(init);
    if DecValue(init) <= MaxUint64 {
      ScanDigitsInRange(init);
    } else {
      ScanDigitsOverflow(init);
    }
  }

  /** On at most 19 characters no range error can occur: a string of digits
      scans to its value and any other string is a syntax error. */
  lemma {:induction false} ScanDigitsShort(s: string)
    requires |s| <= 19
    ensures AllDigits(s) ==> ScanDigits(s) == Value(DecValue(s))
    ensures !AllDigits(s) ==> ScanDigits(s) == SyntaxError
  {
    if s != [] {
      var init := s[..|s| - 1];
      ScanDigitsShort(init);
      if AllDigits(init) {
        DecValueBound(init);
        assert Pow10(18) == 1_000_000_000_000_000_000 by {
          assert Pow10(6) == 1_000_000;
          assert Pow10(12) == 1_000_000 * 1_000_000 by { Pow10Add(6, 6); }
          Pow10Add(12, 6);
        }
        assert Pow10(|init|) <= Pow10(18) by { Pow10Mono(|init|, 18); }
      } else {
        var i :| 0 <= i < |init| && !IsDigit(init[i]);
        assert !IsDigit(s[i]);
      }
    }
  }

  lemma {:induction false} Pow10Add(a: nat, b: nat)
    ensures Pow10(a + b) == Pow10(a) * Pow10(b)
  {
    if a > 0 {
      Pow10Add(a - 1, b);
    }
  }

  lemma {:induction false} Pow10Mono(a: nat, b: nat)
    requires a <= b
    ensures Pow10(a) <= Pow10(b)
  {
    if a < b {
      Pow10Mono(a, b - 1);
    }
  }

  /** A numeral parses to its value clamped into the int64 range. */
  lemma AtoiNumeral(s: string)
    requires IsNumeral(s)
    ensures Atoi(s) == Clamp64(NumeralValue(s))
  {
    var digits := if s[0] == '-' || s[0] == '+' then s[1..] else s;
    if DecValue(digits) <= MaxUint64 {
      ScanDigitsInRange(digits);
    } else {
      ScanDigitsOverflow(digits);
    }
  }

  /** Anything that is not a numeral, up to 20 characters long, parses to 0:
      an empty or non-numeric price contributes nothing and raises nothing. */
  lemma AtoiNonNumeral(s: string)
    requires !IsNumeral(s) && |s| <= 20
    ensures Atoi(s) == 0
  {
    if s != [] {
      var digits := if s[0] == '-' || s[0] == '+' then s[1..] else s;
      if digits != [] {
        if |digits| <= 19 {
          ScanDigitsShort(digits);
        } else {
          // 20 characters, no sign: some character is not a digit
          var i :| 0 <= i < |digits| && !IsDigit(digits[i]);
          ScanDigitsShortPrefix(digits, i);
        }
      }
    }
  }

  /** A non-digit within the first 20 positions is reached before any range
      error: the whole scan is a syntax error. */
  lemma {:induction false} ScanDigitsShortPrefix(s: string, i: nat)
    requires i < |s| && i < 20 && !IsDigit(s[i])
    ensures ScanDigits(s) == SyntaxError
  {
    if |s| - 1 == i {
      var init := s[..i];
      ScanDigitsShort(init);
      if !AllDigits(init) {
        assert ScanDigits(init) == SyntaxError;
      }
    } else {
      var init := s[..|s| - 1];
      assert init[i] == s[i];
      ScanDigitsShortPrefix(init, i);
    }
  }

  /** Atoi undoes Itoa on every 64-bit integer. */
  lemma AtoiItoa(x: int)
    requires IsInt64(x)
    ensures Atoi(Itoa(x)) == x
  {
    if x < 0 {
      var s := Itoa(x);
      assert s[1..] == NatToDec(-x);
      assert IsNumeral(s);
      DecValueOfNatToDec(-x);
      AtoiNumeral(s);
    } else {
      var s := NatToDec(x);
      assert IsNumeral(s);
      DecValueOfNatToDec(x);
      AtoiNumeral(s);
    }
  }

  /** Itoa always yields a numeral (so Atoi never reports a syntax error on it). */
  lemma ItoaIsNumeral(x: int)
    ensures IsNumeral(Itoa(x))
  {
    if x < 0 {
      assert Itoa(x)[1..] == NatToDec(-x);
    }
  }
}

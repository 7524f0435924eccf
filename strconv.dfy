/**
 * strconv.Atoi and strconv.Itoa for Go's 64-bit `int`: an optional sign
 * followed by one or more ASCII digits, rejected when the value does not fit.
 */
module Strconv {
  import opened Wrappers

  const MinInt: int := -0x8000_0000_0000_0000
  const MaxInt: int := 0x7FFF_FFFF_FFFF_FFFF

  predicate IsDigit(c: char) {
    '0' <= c <= '9'
  }

  predicate AllDigits(s: string) {
    forall i | 0 <= i < |s| :: IsDigit(s[i])
  }

  /** The value of a run of decimal digits, most significant first. */
  function DigitsValue(s: string): nat
    requires AllDigits(s)
  {
    if s == [] then 0
    else DigitsValue(s[..|s| - 1]) * 10 + (s[|s| - 1] as int - '0' as int)
  }

  /** The digits after an optional leading sign. */
  function Unsigned(s: string): string
  {
    if s != [] && (s[0] == '+' || s[0] == '-') then s[1..] else s
  }

  /** The signed value of a sign-prefixed run of digits, unbounded. */
  function SignedValue(s: string): int
    requires Unsigned(s) != [] && AllDigits(Unsigned(s))
  {
    if s[0] == '-' then -(DigitsValue(Unsigned(s)) as int) else DigitsValue(Unsigned(s))
  }

  /**
   * strconv.Atoi: fails on an empty string, on a sign with no digits after
   * it, on any other rune, and on values outside Go's 64-bit int.
   */
  function Atoi(s: string): (r: Option<int>)
    ensures r.Some? <==> Unsigned(s) != [] && AllDigits(Unsigned(s)) && MinInt <= SignedValue(s) <= MaxInt
    ensures r.Some? ==> r.value == SignedValue(s)
  {
    var digits := Unsigned(s);
    if digits == [] || !AllDigits(digits) then None
    else
      var v: int := if s[0] == '-' then -(DigitsValue(digits) as int) else DigitsValue(digits);
      if v < MinInt || v > MaxInt then None else Some(v)
  }

  function DigitChar(d: nat): char
    requires d < 10
  {
    ('0' as int + d) as char
  }

  /** The decimal digits of `n`, without leading zeros. */
  function FormatNat(n: nat): string
  {
    if n < 10 then [DigitChar(n)] else FormatNat(n / 10) + [DigitChar(n % 10)]
  }

  /** strconv.Itoa, which is also what fmt's %d prints. */
  function Itoa(n: int): string
  {
    if n < 0 then "-" + FormatNat(-n) else FormatNat(n)
  }

  lemma {:induction false} FormatNatDigits(n: nat)
    ensures FormatNat(n) != [] && AllDigits(FormatNat(n))
    ensures DigitsValue(FormatNat(n)) == n
  {
    var s := FormatNat(n);
    if n >= 10 {
      FormatNatDigits(n / 10);
      assert s[..|s| - 1] == FormatNat(n / 10);
    }
  }

  /** Atoi reads back every int that Itoa prints. */
  lemma AtoiItoa(n: int)
    requires MinInt <= n <= MaxInt
    ensures Atoi(Itoa(n)) == Some(n)
  {
    var s := Itoa(n);
    if n < 0 {
      var digits := FormatNat(-n);
      FormatNatDigits(-n);
      assert s == "-" + digits && s[0] == '-';
      assert Unsigned(s) == digits;
    } else {
      var digits := FormatNat(n);
      FormatNatDigits(n);
      assert s == digits && IsDigit(s[0]);
      assert Unsigned(s) == digits;
    }
  }
}

/** Decimal numbers as Go's strconv.Atoi and the %d verb treat them, for a 64-bit int. */
module Numbers {
  import opened Strings

  const INT_MAX := 0x7FFF_FFFF_FFFF_FFFF
  const INT_MIN := -0x8000_0000_0000_0000

  /** Adding one to an int: the greatest wraps around to the least. */
  function Successor(n: int): int {
    if n == INT_MAX then INT_MIN else n + 1
  }

  predicate IsDigit(c: char) {
    '0' <= c <= '9'
  }

  predicate AllDigits(s: string) {
    forall i :: 0 <= i < |s| ==> IsDigit(s[i])
  }

  function DigitsValue(s: string): nat
    requires AllDigits(s)
  {
    if s == "" then 0 else DigitsValue(s[..|s| - 1]) * 10 + (s[|s| - 1] - '0') as nat
  }

  /** strconv.Atoi: an optional sign, digits, and a value that fits. */
  function Atoi(s: string): Option<int> {
    var signed := s != "" && (s[0] == '+' || s[0] == '-');
    var digits := if signed then s[1..] else s;
    if digits == "" || !AllDigits(digits) then None
    else
      var value: int := DigitsValue(digits);
      var n := if signed && s[0] == '-' then -value else value;
      if INT_MIN <= n <= INT_MAX then Some(n) else None
  }

  function DigitChar(d: nat): char
    requires d < 10
  {
    '0' + d as char
  }

  function Decimal(n: nat): (s: string)
    ensures s != "" && AllDigits(s)
  {
    if n < 10 then [DigitChar(n)] else Decimal(n / 10) + [DigitChar(n % 10)]
  }

  /** The %d verb. */
  function IntText(n: int): string {
    if n < 0 then "-" + Decimal(-n) else Decimal(n)
  }

  lemma {:induction false} DecimalValue(n: nat)
    ensures DigitsValue(Decimal(n)) == n
  {
    var s := Decimal(n);
    if n < 10 {
      assert s[..0] == "";
    } else {
      DecimalValue(n / 10);
      assert s[..|s| - 1] == Decimal(n / 10);
    }
  }

  /** Printing a natural number and parsing it gives the number back. */
  lemma AtoiDecimal(n: nat)
    requires n <= INT_MAX
    ensures Atoi(Decimal(n)) == Some(n)
  {
    DecimalValue(n);
  }

  /** A sign in front counts. */
  lemma AtoiSigned(n: nat)
    requires n <= INT_MAX
    ensures Atoi("-" + Decimal(n)) == Some(0 - n as int) && Atoi("+" + Decimal(n)) == Some(n)
  {
    DecimalValue(n);
    assert ("-" + Decimal(n))[1..] == Decimal(n) && ("+" + Decimal(n))[1..] == Decimal(n);
  }

  /** So does any int, negative ones with their sign. */
  lemma AtoiIntText(n: int)
    requires -0x8000_0000_0000_0000 <= n <= 0x7FFF_FFFF_FFFF_FFFF
    ensures Atoi(IntText(n)) == Some(n)
  {
    DecimalValue(if n < 0 then -n else n);
    if n < 0 {
      assert ("-" + Decimal(-n))[1..] == Decimal(-n);
    }
  }
}

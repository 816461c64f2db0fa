/** Decimal digits and numbers as texts. */
module Digits {
  predicate Digit(c: char) {
    '0' <= c <= '9'
  }

  function Value(c: char): (n: nat)
    requires Digit(c)
    ensures n <= 9
  {
    c as int - '0' as int
  }

  function DigitOf(n: nat): (c: char)
    requires n <= 9
    ensures Digit(c) && Value(c) == n
  {
    ('0' as int + n) as char
  }

  function Decimal(n: nat): (s: string)
    ensures s != []
  {
    if n <= 9 then [DigitOf(n)] else Decimal(n / 10) + [DigitOf(n % 10)]
  }
}

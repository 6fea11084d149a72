/** Decimal numerals, as the strconv package prints and reads them. */
module Decimal {
  import opened Options

  const INT64_LIMIT := 0x8000_0000_0000_0000

  predicate IsInt64(i: int) {
    -INT64_LIMIT <= i < INT64_LIMIT
  }

  function DigitChar(d: nat): char
    requires d < 10
  {
    '0' + d as char
  }

  predicate IsDigit(c: char) {
    '0' <= c <= '9'
  }

  function DigitValue(c: char): nat
    requires IsDigit(c)
  {
    (c - '0') as nat
  }

  function Digits(n: nat): (s: string)
    ensures s != "" && forall i | 0 <= i < |s| :: IsDigit(s[i])
  {
    if n < 10 then [DigitChar(n)] else Digits(n / 10) + [DigitChar(n % 10)]
  }

  function Itoa(i: int): string {
    if i < 0 then "-" + Digits(-i) else Digits(i)
  }

  // The number that a string of digits denotes.
  function Value(s: string): (v: int)
    requires forall i | 0 <= i < |s| :: IsDigit(s[i])
    ensures v >= 0
  {
    if s == "" then 0 else 10 * Value(s[..|s| - 1]) + DigitValue(s[|s| - 1])
  }

  predicate AllDigits(s: string) {
    s != "" && forall i | 0 <= i < |s| :: IsDigit(s[i])
  }

  // An optional sign and digits, within the range of a 64-bit integer.
  function Atoi(s: string): Option<int> {
    var signed := s != "" && (s[0] == '-' || s[0] == '+');
    var digits := if signed then s[1..] else s;
    if !AllDigits(digits) then None
    else
      var n: int := if signed && s[0] == '-' then -Value(digits) else Value(digits);
      if IsInt64(n) then Some(n) else None
  }

  lemma {:induction false} ValueOfDigits(n: nat)
    ensures Value(Digits(n)) == n
  {
    if n < 10 {
      assert Digits(n)[..0] == "";
    } else {
      ValueOfDigits(n / 10);
      assert Digits(n)[..|Digits(n)| - 1] == Digits(n / 10);
    }
  }

  lemma AtoiPositive(digits: string)
    requires AllDigits(digits) && IsInt64(Value(digits))
    ensures Atoi(digits) == Some(Value(digits))
  {
    assert IsDigit(digits[0]);
  }

  lemma AtoiNegative(digits: string)
    requires AllDigits(digits) && IsInt64(-Value(digits))
    ensures Atoi("-" + digits) == Some(-Value(digits))
  {
    assert ("-" + digits)[0] == '-' && ("-" + digits)[1..] == digits;
  }

  lemma AtoiItoa(i: int)
    requires IsInt64(i)
    ensures Atoi(Itoa(i)) == Some(i)
  {
    if i < 0 {
      ValueOfDigits(-i);
      AtoiNegative(Digits(-i));
    } else {
      ValueOfDigits(i);
      AtoiPositive(Digits(i));
    }
  }

  lemma ItoaChars(i: int)
    ensures forall k | 0 <= k < |Itoa(i)| :: IsDigit(Itoa(i)[k]) || Itoa(i)[k] == '-'
  {
  }
}

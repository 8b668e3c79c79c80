/** Decimal numbers as text: `to_string`, `{:020}` and `parse` for unsigned integers. */
module Decimal {
  import opened Base

  predicate IsDigit(c: char) {
    '0' <= c <= '9'
  }

  function DigitValue(c: char): nat
    requires IsDigit(c)
  {
    (c as int) - ('0' as int)
  }

  function DigitChar(d: nat): (c: char)
    requires d < 10
    ensures IsDigit(c) && DigitValue(c) == d
  {
    ('0' as int + d) as char
  }

  predicate AllDigits(s: string) {
    forall i :: 0 <= i < |s| ==> IsDigit(s[i])
  }

  function Value(s: string): nat
    requires AllDigits(s)
  {
    if s == [] then 0 else 10 * Value(s[..|s| - 1]) + DigitValue(s[|s| - 1])
  }

  /** `n.to_string()`. */
  function Print(n: nat): (s: string)
    ensures s != [] && AllDigits(s)
  {
    if n < 10 then [DigitChar(n)] else Print(n / 10) + [DigitChar(n % 10)]
  }

  function Zeros(n: nat): (s: string)
    ensures |s| == n && AllDigits(s)
  {
    if n == 0 then [] else ['0'] + Zeros(n - 1)
  }

  /** `format!("{:020}", n)`. */
  function Pad20(n: nat): string {
    Zeros(if |Print(n)| < 20 then 20 - |Print(n)| else 0) + Print(n)
  }

  /** `s.parse()` for an unsigned type with the given greatest value: an optional plus sign, digits, in range. */
  function Parse(s: string, max: nat): Option<nat> {
    var digits := if s != [] && s[0] == '+' then s[1..] else s;
    if digits != [] && AllDigits(digits) && Value(digits) <= max then Some(Value(digits)) else None
  }

  /** `s.trim_start_matches('0')`. */
  function TrimZeros(s: string): string {
    if s != [] && s[0] == '0' then TrimZeros(s[1..]) else s
  }

  lemma {:induction false} ValueOfPrint(n: nat)
    ensures Value(Print(n)) == n
  {
    if n < 10 {
      assert Print(n)[..0] == [];
    } else {
      ValueOfPrint(n / 10);
      assert Print(n)[..|Print(n)| - 1] == Print(n / 10);
    }
  }

  lemma ParseOfPrint(n: nat, max: nat)
    requires n <= max
    ensures Parse(Print(n), max) == Some(n)
  {
    ValueOfPrint(n);
    assert IsDigit(Print(n)[0]);
  }

  lemma {:induction false} PrintStartsNonZero(n: nat)
    requires n > 0
    ensures Print(n)[0] != '0'
  {
    if n >= 10 {
      PrintStartsNonZero(n / 10);
    }
  }

  lemma {:induction false} TrimZerosOfZeros(k: nat, s: string)
    ensures TrimZeros(Zeros(k) + s) == TrimZeros(s)
  {
    if k == 0 {
      assert Zeros(0) + s == s;
    } else {
      assert (Zeros(k) + s)[1..] == Zeros(k - 1) + s;
      TrimZerosOfZeros(k - 1, s);
    }
  }

  /** How the source reads a padded number back: trimming zeros leaves nothing of a zero, which then fails to parse. */
  lemma ReadPadded(n: nat, max: nat)
    requires n <= max
    ensures Parse(TrimZeros(Pad20(n)), max) == if n == 0 then None else Some(n)
  {
    TrimZerosOfZeros(if |Print(n)| < 20 then 20 - |Print(n)| else 0, Print(n));
    if n == 0 {
      assert Print(0)[1..] == [];
    } else {
      PrintStartsNonZero(n);
      ParseOfPrint(n, max);
    }
  }

  /** What is read as a number: one digit or more, perhaps behind a plus sign, in range. */
  lemma ParseIs(s: string, max: nat, n: nat)
    ensures Parse(s, max) == Some(n) <==>
            exists digits :: digits != [] && AllDigits(digits) && (s == digits || s == "+" + digits)
                             && Value(digits) == n <= max
  {
    var rest := if s != [] && s[0] == '+' then s[1..] else s;
    if Parse(s, max) == Some(n) {
      assert s == rest || s == "+" + rest;
    }
    if digits :| digits != [] && AllDigits(digits) && (s == digits || s == "+" + digits) && Value(digits) == n <= max {
      assert IsDigit(digits[0]);
      assert ("+" + digits)[1..] == digits;
    }
  }
}

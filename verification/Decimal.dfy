/** Decimal rendering of natural numbers, as a template literal or JSON.stringify prints them. */
module Decimal {
  function Digit(d: nat): char
    requires d < 10
  {
    "0123456789"[d]
  }

  predicate IsDigit(c: char) {
    '0' <= c <= '9'
  }

  function DigitValue(c: char): nat
    requires IsDigit(c)
  {
    c as int - '0' as int
  }

  function Dec(n: nat): string {
    if n < 10 then [Digit(n)] else Dec(n / 10) + [Digit(n % 10)]
  }

  /** Reads the longest run of leading digits onto `acc`. */
  function ReadDigits(s: string, acc: nat): (nat, string) {
    if s != [] && IsDigit(s[0]) then ReadDigits(s[1..], acc * 10 + DigitValue(s[0])) else (acc, s)
  }

  lemma ReadOne(d: nat, rest: string, acc: nat)
    requires d < 10
    ensures ReadDigits([Digit(d)] + rest, acc) == ReadDigits(rest, acc * 10 + d)
  {
    var s := [Digit(d)] + rest;
    assert s[0] == Digit(d) && s[1..] == rest;
  }

  lemma {:induction false} ReadDec(n: nat, rest: string)
    ensures ReadDigits(Dec(n) + rest, 0) == ReadDigits(rest, n)
  {
    if n < 10 {
      ReadOne(n, rest, 0);
    } else {
      var last := [Digit(n % 10)];
      assert Dec(n) + rest == Dec(n / 10) + (last + rest);
      ReadDec(n / 10, last + rest);
      ReadOne(n % 10, rest, n / 10);
      assert n / 10 * 10 + n % 10 == n;
    }
  }

  lemma {:induction false} DecIsDigits(n: nat)
    ensures |Dec(n)| > 0 && forall c :: c in Dec(n) ==> IsDigit(c)
  {
    if n >= 10 {
      DecIsDigits(n / 10);
    }
  }

  /** A larger number never has fewer digits. */
  lemma {:induction false} DecLengthMonotone(m: nat, n: nat)
    requires m <= n
    ensures |Dec(m)| <= |Dec(n)|
  {
    DecIsDigits(n);
    if m >= 10 {
      DecLengthMonotone(m / 10, n / 10);
    }
  }
}

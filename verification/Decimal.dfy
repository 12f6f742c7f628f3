/** Bytes, and decimal numbers in text. */
module Decimal {

  type Byte = x: nat | x < 256
  type Bytes = seq<Byte>

  const ZERO: Byte := 48
  const MINUS: Byte := 45
  const PLUS: Byte := 43

  predicate IsDigit(b: Byte) {
    48 <= b <= 57
  }

  predicate IsSpace(b: Byte) {
    b == 32 || 9 <= b <= 13
  }

  /** ll2string and the %d and %lu formats, for a number that is not negative. */
  function Dec(n: nat): (s: Bytes)
    ensures |s| > 0 && forall i :: 0 <= i < |s| ==> IsDigit(s[i])
  {
    if n < 10 then [48 + n] else Dec(n / 10) + [48 + n % 10]
  }

  /** The value of the leading digits, appended to those of `acc`. */
  function Digits(s: Bytes, acc: nat): nat {
    if s == [] || !IsDigit(s[0]) then acc else Digits(s[1..], acc * 10 + (s[0] - 48))
  }

  /** atoi and strtol in base 10: leading spaces, a sign, digits, and the rest ignored. */
  function Atoi(s: Bytes): int {
    if s != [] && IsSpace(s[0]) then Atoi(s[1..])
    else if s != [] && s[0] == MINUS then -(Digits(s[1..], 0) as int)
    else if s != [] && s[0] == PLUS then Digits(s[1..], 0)
    else Digits(s, 0)
  }

  /** Number of digits of a number below a power of ten. */
  lemma {:induction false} DecLength(n: nat, k: nat, p: nat)
    requires k > 0 && p == Pow10(k) && n < p
    ensures |Dec(n)| <= k
  {
    if n >= 10 {
      assert Pow10(0) == 1;
      DecLength(n / 10, k - 1, Pow10(k - 1));
    }
  }

  function Pow10(k: nat): nat {
    if k == 0 then 1 else 10 * Pow10(k - 1)
  }

  lemma {:induction false} Pow10Sum(a: nat, b: nat)
    ensures Pow10(a + b) == Pow10(a) * Pow10(b)
  {
    if a > 0 {
      Pow10Sum(a - 1, b);
      assert Pow10(a) * Pow10(b) == 10 * (Pow10(a - 1) * Pow10(b));
    }
  }

  lemma {:induction false} DigitsOfAppend(s: Bytes, rest: Bytes, acc: nat)
    requires forall i :: 0 <= i < |s| ==> IsDigit(s[i])
    ensures Digits(s + rest, acc) == Digits(rest, Digits(s, acc))
  {
    if s == [] {
      assert s + rest == rest;
    } else {
      assert (s + rest)[1..] == s[1..] + rest;
      DigitsOfAppend(s[1..], rest, acc * 10 + (s[0] - 48));
    }
  }

  lemma {:induction false} DigitsOfDec(n: nat)
    ensures Digits(Dec(n), 0) == n
  {
    if n < 10 {
      assert Dec(n)[1..] == [];
    } else {
      var last: Bytes := [48 + n % 10];
      DigitsOfDec(n / 10);
      DigitsOfAppend(Dec(n / 10), last, 0);
      assert last[1..] == [];
    }
  }

  /** Reading back a printed number, up to the first byte that is not a digit. */
  lemma AtoiOfDec(n: nat, rest: Bytes)
    requires rest == [] || !IsDigit(rest[0])
    ensures Atoi(Dec(n) + rest) == n
  {
    DigitsOfDec(n);
    DigitsOfAppend(Dec(n), rest, 0);
  }
}

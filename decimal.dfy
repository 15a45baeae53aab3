/**
  Decimal digits as the Python sources read and write them: `str.isdigit` on ASCII digits,
  `int(...)` on a digit string, and the zero-padded two-place format `f"{n:02d}"` used by the
  card ids of the flower-card deck and by the worked-hours column of the timecard.
*/
module Decimal {

  predicate IsDigit(c: char)
  {
    '0' <= c <= '9'
  }

  predicate AllDigits(s: string)
  {
    forall i :: 0 <= i < |s| ==> IsDigit(s[i])
  }

  function DigitValue(c: char): nat
    requires IsDigit(c)
  {
    c as int - '0' as int
  }

  function DigitChar(d: nat): (c: char)
    requires d < 10
    ensures IsDigit(c) && DigitValue(c) == d
  {
    ('0' as int + d) as char
  }

  /** The number a digit string denotes (leading zeros allowed, "" is 0). */
  function Value(s: string): nat
    requires AllDigits(s)
  {
    if s == [] then 0 else 10 * Value(s[..|s| - 1]) + DigitValue(s[|s| - 1])
  }

  /** `str(n)` for a natural number: its shortest decimal representation. */
  function Digits(n: nat): (s: string)
    ensures AllDigits(s) && 1 <= |s|
    ensures n < 10 ==> |s| == 1
    ensures 10 <= n < 100 ==> |s| == 2
  {
    if n < 10 then [DigitChar(n)] else Digits(n / 10) + [DigitChar(n % 10)]
  }

  /** `f"{n:02d}"`: at least two characters, zero-padded, a minus sign counting towards the width. */
  function Pad2(n: int): string
  {
    if n < 0 then "-" + Digits(-n)
    else if n < 10 then "0" + Digits(n)
    else Digits(n)
  }

  /** Reading back what `Digits` writes gives the number. */
  lemma {:induction false} DigitsValue(n: nat)
    ensures Value(Digits(n)) == n
  {
    if n >= 10 {
      DigitsValue(n / 10);
      var s := Digits(n);
      assert s[..|s| - 1] == Digits(n / 10);
    }
  }

  /**
    The padded form of a number in 0..99 is exactly two digits and reads back as the number; a
    negative number is written with a leading minus sign and never as digits alone.
  */
  lemma Pad2Value(n: int)
    ensures 0 <= n ==> AllDigits(Pad2(n)) && Value(Pad2(n)) == n
    ensures 0 <= n < 100 ==> |Pad2(n)| == 2
    ensures n < 0 ==> Pad2(n)[0] == '-' && Pad2(n)[1..] == Digits(-n)
    ensures '_' !in Pad2(n)
  {
    if 0 <= n < 10 {
      DigitsValue(n);
      var s := Pad2(n);
      assert s[..|s| - 1] == "0";
      assert Value("0") == 0 by {
        assert "0"[..0] == [];
      }
    } else if 10 <= n {
      DigitsValue(n);
    }
  }

  /** Different numbers have different padded forms. */
  lemma Pad2Injective(a: int, b: int)
    requires Pad2(a) == Pad2(b)
    ensures a == b
  {
    Pad2Value(a);
    Pad2Value(b);
    if a < 0 && b < 0 {
      DigitsInjective(-a, -b);
    }
  }

  lemma DigitsInjective(x: nat, y: nat)
    requires Digits(x) == Digits(y)
    ensures x == y
  {
    DigitsValue(x);
    DigitsValue(y);
  }
}

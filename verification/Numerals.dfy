/** Numbers written in digits, the most significant first. */
module Numerals {
  /** The number a numeral denotes. */
  function Numeral(base: nat, digits: seq<nat>): nat {
    if digits == [] then 0 else base * Numeral(base, digits[..|digits| - 1]) + digits[|digits| - 1]
  }

  lemma NumeralAppend(base: nat, digits: seq<nat>, d: nat)
    ensures Numeral(base, digits + [d]) == base * Numeral(base, digits) + d
  {
    assert (digits + [d])[..|digits|] == digits;
  }

  function Decimal(n: nat): (r: seq<nat>)
    ensures |r| > 0
  {
    if n < 10 then [n] else Decimal(n / 10) + [n % 10]
  }

  lemma DecimalSmall(n: nat)
    requires n < 10
    ensures Decimal(n) == [n] && Numeral(10, [n]) == n
  {
    assert Numeral(10, []) == 0;
  }

  /** The decimal digits of a number denote it, without a zero in front. */
  lemma {:induction false} DecimalDenotes(n: nat)
    ensures Numeral(10, Decimal(n)) == n
    ensures forall i :: 0 <= i < |Decimal(n)| ==> Decimal(n)[i] < 10
    ensures |Decimal(n)| > 1 ==> Decimal(n)[0] != 0
  {
    hide Numeral;
    if n < 10 {
      DecimalSmall(n);
    } else {
      DecimalDenotes(n / 10);
      NumeralAppend(10, Decimal(n / 10), n % 10);
      if n / 10 < 10 {
        DecimalSmall(n / 10);
      }
    }
  }
}

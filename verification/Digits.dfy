/** Positional notation, most significant digit first. */
module Digits {

  function Value(digits: seq<nat>, radix: nat): nat {
    if digits == [] then 0
    else Value(digits[..|digits| - 1], radix) * radix + digits[|digits| - 1]
  }

  /** The digits of a number, without leading zeros; zero is one digit. */
  function ToDigits(n: nat, radix: nat): (digits: seq<nat>)
    requires radix >= 2
    ensures digits != []
    ensures forall d <- digits :: d < radix
  {
    if n < radix then [n] else
      QuotientShrinks(n, radix);
      ToDigits(n / radix, radix) + [n % radix]
  }

  lemma QuotientShrinks(n: nat, radix: nat)
    requires radix >= 2
    ensures n / radix * radix + n % radix == n && n % radix < radix
    ensures n > 0 ==> n / radix < n
    ensures n >= radix ==> n / radix >= 1
  {
    var q, r := n / radix, n % radix;
    assert n == radix * q + r;
    if q == 0 {
    } else {
      assert radix * q >= 2 * q;
    }
  }

  /** Reading the digits of a number gives the number back. */
  lemma {:induction false} ValueOfDigits(n: nat, radix: nat)
    requires radix >= 2
    ensures Value(ToDigits(n, radix), radix) == n
  {
    var ds := ToDigits(n, radix);
    QuotientShrinks(n, radix);
    if n < radix {
      assert ds[..0] == [];
    } else {
      assert ds[..|ds| - 1] == ToDigits(n / radix, radix);
      ValueOfDigits(n / radix, radix);
    }
  }

  function Power(radix: nat, k: nat): nat {
    if k == 0 then 1 else radix * Power(radix, k - 1)
  }

  /** The digit string is as short as it can be: no leading zero, and the count brackets the number. */
  lemma {:induction false} DigitsAreCanonical(n: nat, radix: nat)
    requires radix >= 2
    ensures
      var ds := ToDigits(n, radix);
      && n < Power(radix, |ds|)
      && (n == 0 ==> ds == [0])
      && (n > 0 ==> ds[0] != 0 && Power(radix, |ds| - 1) <= n)
  {
    QuotientShrinks(n, radix);
    if n < radix {
      assert Power(radix, 1) == radix * Power(radix, 0);
    } else {
      var q, k := n / radix, |ToDigits(n / radix, radix)|;
      DigitsAreCanonical(q, radix);
      AppendDigit(radix, q, n % radix, Power(radix, k - 1), Power(radix, k));
    }
  }

  lemma AppendDigit(radix: nat, q: nat, r: nat, low: nat, high: nat)
    requires low <= q < high && r < radix
    ensures radix * low <= q * radix + r < radix * high
  {
    MulMonotone(radix, low, q);
    MulMonotone(radix, q + 1, high);
    assert radix * (q + 1) == q * radix + radix;
  }

  lemma MulMonotone(m: nat, a: nat, b: nat)
    requires a <= b
    ensures m * a <= m * b
  {
  }

  lemma {:induction false} PowerMonotone(radix: nat, j: nat, k: nat)
    requires radix >= 1 && j <= k
    ensures 1 <= Power(radix, j) <= Power(radix, k)
    decreases k
  {
    if k > 0 {
      if j == k {
        PowerMonotone(radix, k - 1, k - 1);
      } else {
        PowerMonotone(radix, j, k - 1);
      }
      MulMonotone(Power(radix, k - 1), 1, radix);
    }
  }

  /** A number below the k-th power has at most k digits. */
  lemma DigitCountBound(n: nat, radix: nat, k: nat)
    requires radix >= 2 && k >= 1 && n < Power(radix, k)
    ensures |ToDigits(n, radix)| <= k
  {
    var ds := ToDigits(n, radix);
    DigitsAreCanonical(n, radix);
    if n > 0 && |ds| > k {
      PowerMonotone(radix, k, |ds| - 1);
    }
  }
}

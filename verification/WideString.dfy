/** Integers to wide strings and back, as dist-include/xdk_compat.h does it: _itow, _i64tow and _wtol. */
module WideString {
  import opened Digits

  type WChar = x: int | 0 <= x < 0x1_0000
  type Wide = seq<WChar>

  const NUL: WChar := 0
  const PLUS: WChar := 43
  const MINUS: WChar := 45

  type Radix = x: nat | 2 <= x <= 36 witness 10

  // Machine integers of a given width.

  function Modulus(bits: nat): int {
    Power(2, bits)
  }

  function Half(bits: nat): int
    requires bits >= 1
  {
    Power(2, bits - 1)
  }

  predicate IsSigned(v: int, bits: nat)
    requires bits >= 1
  {
    -Half(bits) <= v < Half(bits)
  }

  lemma ModulusIsTwice(bits: nat)
    requires bits >= 1
    ensures Modulus(bits) == 2 * Half(bits) && Half(bits) >= 1
  {
    PowerMonotone(2, 0, bits - 1);
  }

  /** The conversion of a signed value to the unsigned type of the same width. */
  function ToUnsigned(v: int, bits: nat): (u: nat)
    ensures u < Modulus(bits)
  {
    PowerMonotone(2, 0, bits);
    v % Modulus(bits)
  }

  /** Negation that wraps: the most negative value stays itself. */
  function Negated(v: int, bits: nat): int
    requires bits >= 1
  {
    if v == -Half(bits) then v else -v
  }

  lemma UnsignedOf(v: int, bits: nat)
    requires bits >= 1 && IsSigned(v, bits)
    ensures ToUnsigned(v, bits) == if v >= 0 then v else v + Modulus(bits)
  {
    ModulusIsTwice(bits);
    UnsignedRemainder(v, Modulus(bits));
  }

  lemma UnsignedRemainder(v: int, m: int)
    requires m > 0 && -m < v < m
    ensures v % m == if v >= 0 then v else v + m
  {
    if v < 0 {
      assert v / m == -1;
    }
  }

  /** For a negative value, wrapping negation gives the magnitude, also for the most negative one. */
  lemma MagnitudeOf(v: int, bits: nat)
    requires bits >= 1 && IsSigned(v, bits) && v < 0
    ensures ToUnsigned(Negated(v, bits), bits) == -v
  {
    ModulusIsTwice(bits);
    UnsignedRemainder(Negated(v, bits), Modulus(bits));
  }

  // The text of an integer.

  function DigitChar(d: nat): WChar
    requires d < 36
  {
    if d < 10 then 48 + d else 97 + d - 10
  }

  function Chars(digits: seq<nat>): (s: Wide)
    requires forall d <- digits :: d < 36
    ensures |s| == |digits|
  {
    seq(|digits|, i requires 0 <= i < |digits| => (assert digits[i] in digits; DigitChar(digits[i])))
  }

  function Numeral(n: nat, radix: Radix): Wide {
    Chars(ToDigits(n, radix))
  }

  predicate Signs(value: int, radix: Radix) {
    radix == 10 && value < 0
  }

  /** The number whose digits are written: the magnitude in radix ten, the bit pattern otherwise. */
  function Magnitude(bits: nat, value: int, radix: Radix): nat {
    if Signs(value, radix) then -value else ToUnsigned(value, bits)
  }

  function Formatted(bits: nat, value: int, radix: Radix): Wide {
    (if Signs(value, radix) then [MINUS] else []) + Numeral(Magnitude(bits, value, radix), radix)
  }

  // The program.

  /** The do-while loop: digits from the least significant on. */
  method WriteDigits(str: array<WChar>, start: nat, magnitude: nat, radix: Radix) returns (p: nat)
    requires start + |Numeral(magnitude, radix)| <= str.Length
    modifies str
    ensures p == start + |Numeral(magnitude, radix)|
    ensures forall i :: 0 <= i < start || p <= i < str.Length ==> str[i] == old(str[i])
    ensures forall i :: start <= i < p ==> str[i] == Numeral(magnitude, radix)[p - 1 - i]
  {
    ghost var all := Numeral(magnitude, radix);
    ghost var end := start + |all|;
    var uv: nat, more := magnitude, true;
    p := start;
    while more
      invariant start <= p <= end
      invariant all[..end - p] == if more then Numeral(uv, radix) else []
      invariant forall i :: 0 <= i < start || p <= i < str.Length ==> str[i] == old(str[i])
      invariant forall i :: start <= i < p ==> str[i] == all[end - 1 - i]
      decreases more, uv
    {
      QuotientShrinks(uv, radix);
      LastDigit(uv, radix);
      assert all[end - p - 1] == all[..end - p][end - p - 1];
      assert all[..end - p][..end - p - 1] == all[..end - p - 1];
      var d := uv % radix;
      str[p] := DigitChar(d);
      p := p + 1;
      uv := uv / radix;
      more := uv != 0;
    }
  }

  lemma LastDigit(n: nat, radix: Radix)
    ensures
      var s := Numeral(n, radix);
      && s != []
      && s[|s| - 1] == DigitChar(n % radix)
      && s[..|s| - 1] == if n / radix == 0 then [] else Numeral(n / radix, radix)
  {
    QuotientShrinks(n, radix);
    if n < radix {
      assert n / radix == 0 && n % radix == n;
    }
  }

  /** The swapping loop, over the cells from `first` to `last`. */
  method ReverseCells(str: array<WChar>, first: nat, last: nat)
    requires first <= last < str.Length
    modifies str
    ensures forall i :: 0 <= i < first || last < i < str.Length ==> str[i] == old(str[i])
    ensures forall i :: first <= i <= last ==> str[i] == old(str[first + last - i])
  {
    var lo, hi := first, last;
    while lo < hi
      invariant first <= lo <= hi + 1 <= last + 1 && lo - first == last - hi
      invariant forall i :: 0 <= i < first || lo <= i <= hi || last < i < str.Length ==> str[i] == old(str[i])
      invariant forall i :: first <= i < lo || hi < i <= last ==> str[i] == old(str[first + last - i])
    {
      str[lo], str[hi] := str[hi], str[lo];
      lo, hi := lo + 1, hi - 1;
    }
  }

  /** The sign, if any; the digits are those of the second result. */
  method WriteSign(bits: nat, value: int, str: array<WChar>, radix: Radix) returns (p: nat, uv: nat)
    requires bits >= 1 && IsSigned(value, bits) && str.Length > 0
    modifies str
    ensures uv == Magnitude(bits, value, radix)
    ensures p == (if Signs(value, radix) then 1 else 0) && (p == 1 ==> str[0] == MINUS)
    ensures forall i :: p <= i < str.Length ==> str[i] == old(str[i])
  {
    if radix == 10 && value < 0 {
      MagnitudeOf(value, bits);
      str[0] := MINUS;
      return 1, ToUnsigned(Negated(value, bits), bits);
    }
    return 0, ToUnsigned(value, bits);
  }

  /** _itow (32 bits) and _i64tow (64 bits). The caller's buffer has room for the text and its NUL. */
  method Itow(bits: nat, value: int, str: array<WChar>, radix: Radix)
    requires bits >= 1 && IsSigned(value, bits)
    requires |Formatted(bits, value, radix)| < str.Length
    modifies str
    ensures str[..] == Formatted(bits, value, radix) + [NUL] + old(str[|Formatted(bits, value, radix)| + 1..])
  {
    var lo, uv := WriteSign(bits, value, str, radix);
    LastDigit(uv, radix);
    var p := WriteDigits(str, lo, uv, radix);
    str[p] := NUL;
    ReverseCells(str, lo, p - 1);
  }

  // Reading a number back, by section 7.29.4.1.2 of ISO/IEC 9899:2011.

  predicate IsBlank(c: WChar) {
    c == 32 || 9 <= c <= 13
  }

  /** The value of a character as a digit; 36 if it is none. */
  function CharValue(c: WChar): nat {
    if 48 <= c <= 57 then c - 48
    else if 97 <= c <= 122 then c - 97 + 10
    else if 65 <= c <= 90 then c - 65 + 10
    else 36
  }

  function SkipBlanks(s: Wide): Wide {
    if s != [] && IsBlank(s[0]) then SkipBlanks(s[1..]) else s
  }

  function SkipPrefix(s: Wide, radix: Radix): Wide {
    if radix == 16 && |s| >= 2 && s[0] == 48 && (s[1] == 120 || s[1] == 88) then s[2..] else s
  }

  function LeadingDigits(s: Wide, radix: Radix): seq<nat> {
    if s != [] && CharValue(s[0]) < radix then [CharValue(s[0])] + LeadingDigits(s[1..], radix) else []
  }

  /** The integer that a text starts with, before it is fitted into the result type; zero if there is none. */
  function ParsedInteger(s: Wide, radix: Radix): int {
    var t := SkipBlanks(s);
    var signed := t != [] && (t[0] == MINUS || t[0] == PLUS);
    var magnitude: int := Value(LeadingDigits(SkipPrefix(if signed then t[1..] else t, radix), radix), radix);
    if signed && t[0] == MINUS then -magnitude else magnitude
  }

  const LONG_BITS: nat := 32

  /** Values out of range become the nearest value of the type. */
  function Saturated(v: int, bits: nat): int
    requires bits >= 1
  {
    if v < -Half(bits) then -Half(bits) else if v >= Half(bits) then Half(bits) - 1 else v
  }

  /** _wtol, as wcstol in radix ten. */
  function Wtol(s: Wide): int {
    Saturated(ParsedInteger(s, 10), LONG_BITS)
  }

  lemma {:induction false} LeadingDigitsOf(digits: seq<nat>, radix: Radix, rest: Wide)
    requires forall d <- digits :: d < radix
    requires rest != [] && CharValue(rest[0]) >= radix
    ensures LeadingDigits(Chars(digits) + rest, radix) == digits
  {
    var s := Chars(digits) + rest;
    if digits == [] {
      assert s == rest;
    } else {
      assert digits[0] in digits;
      assert forall d :: d in digits[1..] ==> d in digits;
      assert s[1..] == Chars(digits[1..]) + rest;
      LeadingDigitsOf(digits[1..], radix, rest);
    }
  }

  lemma NumeralHasNoPrefix(n: nat, radix: Radix, rest: Wide)
    requires rest != [] && rest[0] == NUL
    ensures
      var s := Numeral(n, radix) + rest;
      && 48 <= s[0] && s[0] != MINUS && s[0] != PLUS && !IsBlank(s[0])
      && SkipPrefix(s, radix) == s
  {
    var ds := ToDigits(n, radix);
    assert ds[0] in ds;
    if |ds| > 1 {
      assert ds[1] in ds;
    }
  }

  lemma NumeralReads(n: nat, radix: Radix, rest: Wide)
    requires rest != [] && rest[0] == NUL
    ensures Value(LeadingDigits(Numeral(n, radix) + rest, radix), radix) == n
  {
    LeadingDigitsOf(ToDigits(n, radix), radix, rest);
    ValueOfDigits(n, radix);
  }

  /** Reading what _itow or _i64tow left in the buffer gives the value back: the value itself in radix ten, and the
      unsigned value of the same bits in the other radices. */
  lemma FormatParse(bits: nat, value: int, radix: Radix, rest: Wide)
    requires bits >= 1 && IsSigned(value, bits)
    ensures ParsedInteger(Formatted(bits, value, radix) + [NUL] + rest, radix)
      == if radix == 10 then value else ToUnsigned(value, bits)
  {
    var n := Magnitude(bits, value, radix);
    var s := Formatted(bits, value, radix) + [NUL] + rest;
    var unsignedPart := Numeral(n, radix) + ([NUL] + rest);
    NumeralHasNoPrefix(n, radix, [NUL] + rest);
    NumeralReads(n, radix, [NUL] + rest);
    if Signs(value, radix) {
      assert s == [MINUS] + unsignedPart;
      assert s[1..] == unsignedPart;
    } else {
      assert s == unsignedPart;
      UnsignedOf(value, bits);
    }
  }

  /** _wtol undoes _itow for every value, and _i64tow exactly for those that a long holds. */
  lemma WtolInverse(bits: nat, value: int, rest: Wide)
    requires bits >= 1 && IsSigned(value, bits)
    ensures Wtol(Formatted(bits, value, 10) + [NUL] + rest) == Saturated(value, LONG_BITS)
    ensures Wtol(Formatted(bits, value, 10) + [NUL] + rest) == value <==> IsSigned(value, LONG_BITS)
  {
    FormatParse(bits, value, 10, rest);
    ModulusIsTwice(LONG_BITS);
  }

  /** The digits have no leading zero, and their count brackets the magnitude. */
  lemma TextIsCanonical(bits: nat, value: int, radix: Radix)
    requires bits >= 1 && IsSigned(value, bits)
    ensures
      var text, n := Formatted(bits, value, radix), Magnitude(bits, value, radix);
      var sign := if Signs(value, radix) then 1 else 0;
      var k := |text| - sign;
      && k >= 1 && n < Power(radix, k)
      && (if n == 0 then text == [48] else text[sign] != 48 && Power(radix, k - 1) <= n)
  {
    var n := Magnitude(bits, value, radix);
    DigitsAreCanonical(n, radix);
    var ds := ToDigits(n, radix);
    assert ds[0] in ds;
  }

  /** Only digits and lower-case letters, behind a minus sign at most. */
  lemma TextIsLowerCase(bits: nat, value: int, radix: Radix, i: nat)
    requires bits >= 1 && IsSigned(value, bits) && i < |Formatted(bits, value, radix)|
    ensures
      var c := Formatted(bits, value, radix)[i];
      48 <= c <= 57 || 97 <= c <= 122 || (i == 0 && c == 45)
  {
    var digits, sign := ToDigits(Magnitude(bits, value, radix), radix), if Signs(value, radix) then 1 else 0;
    if i >= sign {
      CharsAreLowerCase(digits, i - sign);
    }
  }

  lemma CharsAreLowerCase(digits: seq<nat>, i: nat)
    requires (forall d <- digits :: d < 36) && i < |digits|
    ensures 48 <= Chars(digits)[i] <= 57 || 97 <= Chars(digits)[i] <= 122
  {
    assert digits[i] in digits;
  }

  lemma {:induction false} BinaryIsLongest(radix: nat, k: nat)
    requires radix >= 2
    ensures Power(2, k) <= Power(radix, k)
    ensures k >= 1 && radix > 2 ==> Power(2, k) < Power(radix, k)
  {
    if k > 0 {
      BinaryIsLongest(radix, k - 1);
      PowerMonotone(2, 0, k - 1);
      MulMonotone(radix, Power(2, k - 1), Power(radix, k - 1));
      assert radix > 2 ==> radix * Power(2, k - 1) >= 3 * Power(2, k - 1) by {
        if radix > 2 {
          MulMonotone(Power(2, k - 1), 3, radix);
        }
      }
    }
  }

  /** A buffer of one cell a bit and one for the NUL is always enough. */
  lemma BufferBound(bits: nat, value: int, radix: Radix)
    requires bits >= 2 && IsSigned(value, bits)
    ensures |Formatted(bits, value, radix)| + 1 <= bits + 1
  {
    var n := Magnitude(bits, value, radix);
    if Signs(value, radix) {
      BinaryIsLongest(10, bits - 1);
      DigitCountBound(n, 10, bits - 1);
    } else {
      BinaryIsLongest(radix, bits);
      DigitCountBound(n, radix, bits);
    }
  }

  /** The two formatters agree on an int exactly when it is not negative or the radix is ten. */
  lemma FormattersAgreeIff(value: int, radix: Radix)
    requires IsSigned(value, 32)
    ensures Formatted(32, value, radix) == Formatted(64, value, radix) <==> value >= 0 || radix == 10
  {
    ModulusIsTwice(32);
    PowerMonotone(2, 31, 63);
    PowerMonotone(2, 33, 64);
    assert Power(2, 33) == 2 * Modulus(32);
    UnsignedOf(value, 32);
    UnsignedOf(value, 64);
    FormatParse(32, value, radix, []);
    FormatParse(64, value, radix, []);
  }
}

/** The Python text operations that tools/isa-scan.py applies to Latin-1 header fields. */
module Latin1 {
  import opened Prelude
  import Digits

  type Byte = x: int | 0 <= x < 256
  type Text = seq<Byte>

  const SPACE: Byte := 32
  const NEWLINE: Byte := 10
  const SLASH: Byte := 47
  const ZERO: Byte := 48
  const UNDERSCORE: Byte := 95

  /** Latin-1 characters for which str.isspace holds. */
  predicate IsSpace(c: Byte) {
    9 <= c <= 13 || 28 <= c <= 32 || c == 0x85 || c == 0xA0
  }

  function RStrip(s: Text): Text {
    if s != [] && IsSpace(s[|s| - 1]) then RStrip(s[..|s| - 1]) else s
  }

  function LStrip(s: Text): Text {
    if s != [] && IsSpace(s[0]) then LStrip(s[1..]) else s
  }

  function Strip(s: Text): Text {
    LStrip(RStrip(s))
  }

  function RStripSlash(s: Text): Text {
    if s != [] && s[|s| - 1] == SLASH then RStripSlash(s[..|s| - 1]) else s
  }

  predicate IsDecimal(c: Byte) {
    ZERO <= c <= ZERO + 9
  }

  /** str.isdigit on one character: the superscripts one, two and three count too, though int() rejects them. */
  predicate IsDigitChar(c: Byte) {
    IsDecimal(c) || c == 0xB2 || c == 0xB3 || c == 0xB9
  }

  predicate AllDigitChars(s: Text) {
    s == [] || (IsDigitChar(s[0]) && AllDigitChars(s[1..]))
  }

  /** str.isdigit */
  predicate IsDigitText(s: Text) {
    s != [] && AllDigitChars(s)
  }

  /** Digits with single underscores between them. */
  predicate IsDigitRun(s: Text)
    decreases |s|, 0
  {
    s != [] && IsDecimal(s[0]) && ContinuesRun(s[1..])
  }

  predicate ContinuesRun(s: Text)
    decreases |s|, 1
  {
    s == [] || IsDigitRun(if s[0] == UNDERSCORE then s[1..] else s)
  }

  function DigitValue(c: Byte): nat
    requires IsDecimal(c)
  {
    c - ZERO
  }

  /** The values of the digits of a run, underscores dropped. */
  function DigitValues(s: Text): seq<nat> {
    if s == [] then [] else
      var last := s[|s| - 1];
      DigitValues(s[..|s| - 1]) + if IsDecimal(last) then [DigitValue(last)] else []
  }

  /** int(s), with None for ValueError. */
  function ParseInt(s: Text): Option<int> {
    var t := Strip(s);
    var negative := t != [] && t[0] == 45;
    var run := if t != [] && (t[0] == 45 || t[0] == 43) then t[1..] else t;
    if !IsDigitRun(run) then None
    else
      var magnitude: int := Digits.Value(DigitValues(run), 10);
      Some(if negative then -magnitude else magnitude)
  }

  /** A digit text has no sign and no blanks, so int() of it is not negative. */
  lemma DigitTextIsNatural(s: Text)
    requires IsDigitText(s)
    ensures ParseInt(s).Some? ==> ParseInt(s).value >= 0
  {
    DigitTextStrips(s);
  }

  lemma {:induction false} DigitCharAt(s: Text, i: nat)
    requires AllDigitChars(s) && i < |s|
    ensures IsDigitChar(s[i])
  {
    if i > 0 {
      DigitCharAt(s[1..], i - 1);
    }
  }

  lemma DigitTextStrips(s: Text)
    requires IsDigitText(s)
    ensures Strip(s) == s
  {
    DigitCharAt(s, |s| - 1);
  }

  /** s.find(b, from) */
  function Find(s: Text, b: Byte, from: nat): Option<nat>
    decreases |s| - from
  {
    if from >= |s| then None else if s[from] == b then Some(from) else Find(s, b, from + 1)
  }

  /** s[n:] for a non-negative n. */
  function Drop(s: Text, n: nat): Text {
    if n <= |s| then s[n..] else []
  }

  /** s[a:b] for non-negative a and b, which clips to the string. */
  function Slice(s: Text, a: nat, b: int): Text {
    if b <= a || a >= |s| then [] else s[a..if b <= |s| then b else |s|]
  }

  /** The position that an index into a string of length n stands for: negative ones count from its end. */
  function Position(i: int, n: nat): nat {
    if i >= 0 then i else if i + n >= 0 then i + n else 0
  }

  /** s[a:b] for any a and b. */
  function PySlice(s: Text, a: int, b: int): Text {
    Slice(s, Position(a, |s|), Position(b, |s|))
  }

  /** A position before the start is taken from the end, or for the start if it is not there either. */
  lemma SliceFromEnd(s: Text, a: int, b: int)
    ensures -|s| <= a < 0 ==> PySlice(s, a, b) == PySlice(s, a + |s|, b)
    ensures -|s| <= b < 0 ==> PySlice(s, a, b) == PySlice(s, a, b + |s|)
    ensures a < -|s| ==> PySlice(s, a, b) == PySlice(s, 0, b)
    ensures b < -|s| ==> PySlice(s, a, b) == []
    ensures 0 <= a <= b <= |s| ==> PySlice(s, a, b) == s[a..b]
  {
  }

  /** Blanks of every kind are stripped: the tab and the line breaks, the separators, the space, the next-line
      character and the no-break space. */
  lemma BlanksStrip(c: Byte, s: Text)
    requires c in {9, 10, 11, 12, 13, 28, 29, 30, 31, 32, 0x85, 0xA0}
    ensures RStrip(s + [c]) == RStrip(s) && LStrip([c] + s) == LStrip(s)
  {
    assert (s + [c])[..|s|] == s && ([c] + s)[1..] == s;
  }

  // Writing a number and reading it back.

  function DecimalDigit(d: nat): (c: Byte)
    ensures d < 10 ==> IsDecimal(c) && DigitValue(c) == d
  {
    if d < 10 then ZERO + d else ZERO
  }

  function Decimal(n: nat): (s: Text)
    ensures s != [] && |s| == |Digits.ToDigits(n, 10)|
    ensures forall i | 0 <= i < |s| :: IsDecimal(s[i]) && DigitValue(s[i]) == Digits.ToDigits(n, 10)[i]
  {
    var ds := Digits.ToDigits(n, 10);
    assert forall i | 0 <= i < |ds| :: ds[i] in ds;
    seq<Byte>(|ds|, i requires 0 <= i < |ds| => DecimalDigit(ds[i]))
  }

  lemma {:induction false} DigitValuesAt(s: Text)
    requires forall i | 0 <= i < |s| :: IsDecimal(s[i])
    ensures |DigitValues(s)| == |s|
    ensures forall i | 0 <= i < |s| :: DigitValues(s)[i] == DigitValue(s[i])
  {
    if s != [] {
      DigitValuesAt(s[..|s| - 1]);
    }
  }

  lemma {:induction false} DecimalsAreDigits(s: Text)
    requires forall i | 0 <= i < |s| :: IsDecimal(s[i])
    ensures AllDigitChars(s) && ContinuesRun(s)
  {
    if s != [] {
      DecimalsAreDigits(s[1..]);
    }
  }

  lemma {:induction false} RStripPadding(s: Text, n: nat)
    requires s == [] || !IsSpace(s[|s| - 1])
    ensures RStrip(s + Spaces(n)) == s
  {
    var padded := s + Spaces(n);
    if n == 0 {
      assert padded == s;
    } else {
      assert padded[..|padded| - 1] == s + Spaces(n - 1);
      RStripPadding(s, n - 1);
    }
  }

  function Spaces(n: nat): (s: Text)
    ensures |s| == n
  {
    seq<Byte>(n, _ => SPACE)
  }

  lemma DecimalStrips(n: nat, pad: nat)
    ensures Strip(Decimal(n) + Spaces(pad)) == Decimal(n) && Strip(Decimal(n)) == Decimal(n)
  {
    RStripPadding(Decimal(n), pad);
  }

  lemma DecimalValue(n: nat)
    ensures IsDigitText(Decimal(n)) && IsDigitRun(Decimal(n)) && Digits.Value(DigitValues(Decimal(n)), 10) == n
  {
    var s, ds := Decimal(n), Digits.ToDigits(n, 10);
    DigitValuesAt(s);
    DecimalsAreDigits(s);
    assert DigitValues(s) == ds;
    Digits.ValueOfDigits(n, 10);
  }

  /** int() of a decimal numeral padded with blanks, as archive headers hold it. */
  lemma DecimalRoundTrip(n: nat, pad: nat)
    ensures Strip(Decimal(n) + Spaces(pad)) == Decimal(n)
    ensures IsDigitText(Decimal(n)) && ParseInt(Decimal(n)) == Some(n)
  {
    DecimalStrips(n, pad);
    DecimalValue(n);
  }

  /** A sign is read. */
  lemma SignsRead(n: nat)
    ensures ParseInt([43] + Decimal(n)) == Some(n) && ParseInt([45] + Decimal(n)) == Some(0 - n)
  {
    SignedReads(43, n);
    SignedReads(45, n);
  }

  lemma SignedReads(sign: Byte, n: nat)
    requires sign == 43 || sign == 45
    ensures ParseInt([sign] + Decimal(n)) == Some(if sign == 45 then 0 - n else n)
  {
    var s := [sign] + Decimal(n);
    assert s[1..] == Decimal(n);
    assert Strip(s) == s;
    DecimalsAreDigits(Decimal(n));
    DecimalValue(n);
  }

  /** Single underscores between digits are passed over, and others make no number. */
  lemma UnderscoresRead()
    ensures ParseInt([49, 95, 48]) == Some(10) && ParseInt([49, 95, 95, 48]) == None
  {
    var s, t := [49, 95, 48], [49, 95, 95, 48];
    assert Strip(s) == s && Strip(t) == t;
    assert s[1..] == [95, 48] && [95, 48][1..] == [48] && [48][1..] == [];
    assert ContinuesRun([]) && IsDigitRun([48]) && ContinuesRun([95, 48]) && IsDigitRun(s);
    assert t[1..] == [95, 95, 48] && [95, 95, 48][1..] == [95, 48];
    assert !IsDigitRun([95, 48]) && !ContinuesRun([95, 95, 48]) && !IsDigitRun(t);
    UnderscoreValue();
  }

  lemma DigitValuesSnoc(s: Text, c: Byte)
    ensures DigitValues(s + [c]) == DigitValues(s) + if IsDecimal(c) then [DigitValue(c)] else []
  {
    assert (s + [c])[..|s|] == s;
  }

  lemma ValueSnoc(digits: seq<nat>, d: nat)
    ensures Digits.Value(digits + [d], 10) == Digits.Value(digits, 10) * 10 + d
  {
    assert (digits + [d])[..|digits|] == digits;
  }

  lemma UnderscoreValue()
    ensures Digits.Value(DigitValues([49, 95, 48]), 10) == 10
  {
    assert [49, 95, 48] == [] + [49] + [95] + [48];
    DigitValuesSnoc([], 49);
    DigitValuesSnoc([] + [49], 95);
    DigitValuesSnoc([] + [49] + [95], 48);
    ValueSnoc([], 1);
    ValueSnoc([] + [1], 0);
    assert DigitValues([]) + [1] + [] + [0] == [] + [1] + [0];
  }
}

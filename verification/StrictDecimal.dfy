/** Strict decimal strings: the accepted strings are the fixed points of rendering what was parsed, one
    for each multiple of a ten-thousandth below the bound. */
module StrictDecimal {
  import opened Common
  import opened Json
  import opened JsonRoundTrip
  import opened DecimalDigits

  const POINT := 46
  const MINUS := 45

  // ---- The pattern ----

  /** A string of the pattern `-?(0|[1-9][0-9]{0,7})(\.[0-9]{1,4})?`, by its parts. */
  datatype Literal = Literal(negative: bool, whole: Text, fraction: Text)

  predicate LiteralOk(l: Literal) {
    && (l.whole == [ZERO] || (1 <= |l.whole| <= 8 && AllDigits(l.whole) && l.whole[0] != ZERO))
    && |l.fraction| <= 4 && AllDigits(l.fraction)
  }

  function Signed(negative: bool, body: Text): Text {
    if negative then [MINUS] + body else body
  }

  function Write(l: Literal): Text {
    Signed(l.negative, l.whole + (if l.fraction == [] then [] else [POINT] + l.fraction))
  }

  function ScanBody(negative: bool, body: Text): Option<Literal> {
    var (whole, rest) := TakeDigits(body);
    if rest == [] && LiteralOk(Literal(negative, whole, [])) then Some(Literal(negative, whole, []))
    else if |rest| > 1 && rest[0] == POINT && LiteralOk(Literal(negative, whole, rest[1..])) then
      Some(Literal(negative, whole, rest[1..]))
    else None
  }

  function Scan(s: Text): Option<Literal> {
    if s != [] && s[0] == MINUS then ScanBody(true, s[1..]) else ScanBody(false, s)
  }

  /** Scanning finds the parts of exactly the strings of the pattern. */
  lemma ScanExactly(s: Text, l: Literal)
    ensures Scan(s) == Some(l) <==> LiteralOk(l) && s == Write(l)
  {
    if Scan(s) == Some(l) {
      var body := if s[0] == MINUS then s[1..] else s;
      assert s == Signed(l.negative, body);
      assert l.fraction != [] ==> TakeDigits(body).1 == [POINT] + l.fraction;
    }
    if LiteralOk(l) && s == Write(l) {
      var rest := if l.fraction == [] then [] else [POINT] + l.fraction;
      TakeAllDigits(l.whole, rest);
      assert l.negative ==> s[1..] == l.whole + rest;
      assert (l.whole + rest)[0] == l.whole[0];
      assert l.fraction != [] ==> rest[1..] == l.fraction;
    }
  }

  // ---- Parsing and rendering ----

  /** Sign, coefficient and number of fraction digits, as a Decimal keeps them. */
  datatype Number = Number(negative: bool, coefficient: nat, scale: nat)

  function NumberOf(l: Literal): Number
    requires LiteralOk(l)
  {
    var digits := l.whole + l.fraction;
    ValueIsNatural(digits);
    Number(l.negative, ValueOf(digits), |l.fraction|)
  }

  function AtLeast(n: nat, width: nat): Text {
    if |Digits(n)| >= width then Digits(n) else Padded(n, width)
  }

  /** `format(value, "f")`. */
  function Plain(n: Number): Text {
    var digits := AtLeast(n.coefficient, n.scale + 1);
    PaddedLength(n.coefficient, n.scale + 1);
    var whole := digits[..|digits| - n.scale];
    Signed(n.negative, whole + (if n.scale == 0 then [] else [POINT] + digits[|digits| - n.scale..]))
  }

  function StripRight(s: Text, c: int): Text {
    if s != [] && s[|s| - 1] == c then StripRight(s[..|s| - 1], c) else s
  }

  function Render(n: Number): Text {
    var plain := Plain(n);
    var result := if POINT in plain then StripRight(StripRight(plain, ZERO), POINT) else plain;
    if result == [MINUS, ZERO] then [ZERO] else result
  }

  predicate Accepts(s: Text) {
    var l := Scan(s);
    l.Some? && (ScanExactly(s, l.value); Render(NumberOf(l.value)) == s)
  }

  lemma {:induction false} ValueIsNatural(s: Text)
    requires AllDigits(s)
    ensures ValueOf(s) >= 0
  {
    if s != [] {
      ValueIsNatural(s[..|s| - 1]);
    }
  }

  /** Digit strings without a needless zero in front come back from their value. */
  lemma DigitsBack(s: Text, width: nat)
    requires s != [] && AllDigits(s) && width <= |s| && (s[0] != ZERO || width == |s|)
    ensures ValueOf(s) >= 0 && AtLeast(ValueOf(s), width) == s
  {
    DigitCount(s);
    PaddedOfValue(s);
    DigitsArePadded(ValueOf(s));
  }

  /** Formatting a parsed string gives the string back. */
  lemma PlainRestores(l: Literal)
    requires LiteralOk(l)
    ensures Plain(NumberOf(l)) == Write(l)
  {
    var digits := l.whole + l.fraction;
    DigitsBack(digits, |l.fraction| + 1);
    assert digits[..|digits| - |l.fraction|] == l.whole && digits[|digits| - |l.fraction|..] == l.fraction;
  }

  // ---- Which strings are accepted ----

  function TrimZeros(s: Text): Text {
    StripRight(s, ZERO)
  }

  lemma {:induction false} StripBehind(a: Text, s: Text, c: int)
    ensures StripRight(a + s, c) == if StripRight(s, c) == [] then StripRight(a, c) else a + StripRight(s, c)
    decreases |s|
  {
    if s == [] {
      assert a + s == a;
    } else if s[|s| - 1] == c {
      assert (a + s)[..|a + s| - 1] == a + s[..|s| - 1];
      StripBehind(a, s[..|s| - 1], c);
    }
  }

  lemma {:induction false} StripShortens(s: Text, c: int)
    ensures |StripRight(s, c)| <= |s| && StripRight(s, c) <= s
    ensures StripRight(s, c) == s <==> s == [] || s[|s| - 1] != c
    ensures StripRight(s, c) == [] || StripRight(s, c)[|StripRight(s, c)| - 1] != c
  {
    if s != [] && s[|s| - 1] == c {
      StripShortens(s[..|s| - 1], c);
    }
  }

  function Trim(l: Literal): Literal {
    l.(fraction := TrimZeros(l.fraction))
  }

  lemma NoPoint(l: Literal)
    requires LiteralOk(l) && l.fraction == []
    ensures POINT !in Write(l)
  {
  }

  lemma FrontOf(l: Literal)
    requires LiteralOk(l)
    ensures var front := Signed(l.negative, l.whole); front != [] && front[|front| - 1] != POINT
  {
    var front := Signed(l.negative, l.whole);
    assert front[|front| - 1] == l.whole[|l.whole| - 1];
  }

  lemma StripPoint(front: Text, kept: Text)
    requires front != [] && front[|front| - 1] != POINT && AllDigits(kept)
    ensures StripRight((front + [POINT]) + kept, POINT) == if kept == [] then front else (front + [POINT]) + kept
  {
    StripShortens(kept, POINT);
    StripBehind(front + [POINT], kept, POINT);
    StripShortens(front, POINT);
    assert (front + [POINT])[..|front|] == front;
    assert StripRight(front + [POINT], POINT) == StripRight(front, POINT);
  }

  lemma StripZeros(front: Text, fraction: Text)
    ensures StripRight((front + [POINT]) + fraction, ZERO) == (front + [POINT]) + TrimZeros(fraction)
  {
    StripBehind(front + [POINT], fraction, ZERO);
    StripShortens(front + [POINT], ZERO);
    assert (front + [POINT]) + [] == front + [POINT];
  }

  lemma WrittenParts(l: Literal)
    ensures l.fraction != [] ==> Write(l) == (Signed(l.negative, l.whole) + [POINT]) + l.fraction
    ensures l.fraction == [] ==> Write(l) == Signed(l.negative, l.whole)
  {
    assert l.whole + [] == l.whole;
  }

  /** Stripping a written literal strips its fraction. */
  lemma StripWritten(l: Literal)
    requires LiteralOk(l) && l.fraction != []
    ensures POINT in Write(l)
    ensures StripRight(StripRight(Write(l), ZERO), POINT) == Write(Trim(l))
  {
    var front := Signed(l.negative, l.whole);
    FrontOf(l);
    WrittenParts(l);
    WrittenParts(Trim(l));
    assert Write(l)[|front|] == POINT;
    StripShortens(l.fraction, ZERO);
    StripZeros(front, l.fraction);
    StripPoint(front, TrimZeros(l.fraction));
  }

  lemma RenderIsTrimmed(l: Literal)
    requires LiteralOk(l)
    ensures Render(NumberOf(l)) == if Write(Trim(l)) == [MINUS, ZERO] then [ZERO] else Write(Trim(l))
  {
    PlainRestores(l);
    if l.fraction == [] {
      NoPoint(l);
    } else {
      StripWritten(l);
    }
  }

  /** No needless zero at the end of the fraction, and no negative zero. */
  predicate Canonical(l: Literal) {
    && (l.fraction != [] ==> l.fraction[|l.fraction| - 1] != ZERO)
    && !(l.negative && l.whole == [ZERO] && l.fraction == [])
  }

  lemma NegativeZero(l: Literal)
    requires LiteralOk(l)
    ensures Write(l) == [MINUS, ZERO] <==> l.negative && l.whole == [ZERO] && l.fraction == []
  {
    assert !l.negative ==> Write(l)[0] == l.whole[0];
    assert l.negative ==> Write(l)[1] == l.whole[0] && Write(l)[1..] == Write(l.(negative := false));
  }

  lemma WriteLength(l: Literal)
    ensures |Write(l)| == (if l.negative then 1 else 0) + |l.whole| + (if l.fraction == [] then 0 else 1 + |l.fraction|)
  {
  }

  lemma TrimIsShorter(l: Literal)
    ensures Trim(l) == l || |Write(Trim(l))| < |Write(l)|
    ensures Trim(l) == l <==> l.fraction == [] || l.fraction[|l.fraction| - 1] != ZERO
  {
    StripShortens(l.fraction, ZERO);
    WriteLength(l);
    WriteLength(Trim(l));
  }

  lemma CanonicalIsFixed(l: Literal)
    requires LiteralOk(l)
    ensures Render(NumberOf(l)) == Write(l) <==> Canonical(l)
  {
    RenderIsTrimmed(l);
    TrimIsShorter(l);
    NegativeZero(l);
    NegativeZero(l.(fraction := []));
  }

  /** The accepted strings, exactly. */
  lemma AcceptsExactly(s: Text)
    ensures Accepts(s) <==> Scan(s).Some? && Canonical(Scan(s).value)
  {
    if Scan(s).Some? {
      ScanExactly(s, Scan(s).value);
      CanonicalIsFixed(Scan(s).value);
    }
  }

  // ---- One accepted string for each amount ----

  function Zeros(n: nat): Text {
    if n == 0 then [] else Zeros(n - 1) + [ZERO]
  }

  /** The fraction, filled to four digits. */
  function Filled(fraction: Text): Text
    requires |fraction| <= 4
  {
    fraction + Zeros(4 - |fraction|)
  }

  /** The size of the amount, in ten-thousandths. */
  function Size(l: Literal): int
    requires LiteralOk(l)
  {
    ValueOf(l.whole) * 10_000 + ValueOf(Filled(l.fraction))
  }

  function Units(l: Literal): int
    requires LiteralOk(l)
  {
    if l.negative then -Size(l) else Size(l)
  }

  function FromUnits(v: int): Literal {
    var size := if v < 0 then -v else v;
    Literal(v < 0, Digits(size / 10_000), TrimZeros(Padded(size % 10_000, 4)))
  }

  lemma {:induction false} ZerosAre(n: nat)
    ensures |Zeros(n)| == n && AllDigits(Zeros(n)) && ValueOf(Zeros(n)) == 0
    ensures n > 0 ==> StripRight(Zeros(n), ZERO) == [] && Zeros(n)[|Zeros(n)| - 1] == ZERO
    ensures StripRight(Zeros(n), ZERO) == []
  {
    if n > 0 {
      ZerosAre(n - 1);
      assert Zeros(n)[..n - 1] == Zeros(n - 1);
    }
  }

  lemma TrimOfFilled(fraction: Text)
    requires |fraction| <= 4 && (fraction != [] ==> fraction[|fraction| - 1] != ZERO)
    ensures TrimZeros(Filled(fraction)) == fraction
  {
    ZerosAre(4 - |fraction|);
    StripBehind(fraction, Zeros(4 - |fraction|), ZERO);
    StripShortens(fraction, ZERO);
  }

  lemma {:induction false} FilledOfTrim(s: Text, n: nat)
    requires AllDigits(s) && |s| <= n
    ensures |TrimZeros(s)| <= |s| && TrimZeros(s) + Zeros(n - |TrimZeros(s)|) == s + Zeros(n - |s|)
    decreases |s|
  {
    if s != [] && s[|s| - 1] == ZERO {
      var init := s[..|s| - 1];
      FilledOfTrim(init, n);
      ZerosShift(n - |s|);
      assert s == init + [ZERO];
      assert init + Zeros(n - |init|) == init + ([ZERO] + Zeros(n - |s|)) == s + Zeros(n - |s|);
    }
  }

  lemma {:induction false} ZerosShift(n: nat)
    ensures Zeros(n + 1) == [ZERO] + Zeros(n)
  {
    if n > 0 {
      ZerosShift(n - 1);
      assert [ZERO] + Zeros(n - 1) + [ZERO] == [ZERO] + (Zeros(n - 1) + [ZERO]);
    } else {
      assert Zeros(1) == Zeros(0) + [ZERO];
    }
  }

  lemma FilledValue(fraction: Text)
    requires |fraction| <= 4 && AllDigits(fraction)
    ensures |Filled(fraction)| == 4 && AllDigits(Filled(fraction))
    ensures 0 <= ValueOf(Filled(fraction)) < 10_000 && Padded(ValueOf(Filled(fraction)), 4) == Filled(fraction)
  {
    ZerosAre(4 - |fraction|);
    PaddedOfValue(Filled(fraction));
    Powers();
  }

  lemma WholeBack(whole: Text)
    requires whole == [ZERO] || (1 <= |whole| <= 8 && AllDigits(whole) && whole[0] != ZERO)
    ensures ValueOf(whole) >= 0 && Digits(ValueOf(whole)) == whole
    ensures whole != [ZERO] ==> ValueOf(whole) > 0
  {
    if whole == [ZERO] {
      assert whole[..0] == [];
      assert ValueOf([]) == 0;
    } else {
      DigitCount(whole);
      DigitsBack(whole, 1);
    }
  }

  lemma TwoParts(w: nat, f: nat)
    requires f < 10_000
    ensures (w * 10_000 + f) / 10_000 == w && (w * 10_000 + f) % 10_000 == f
  {
  }

  lemma PartsBack(l: Literal, w: nat, f: nat, size: int)
    requires f < 10_000 && size == w * 10_000 + f
    requires Digits(w) == l.whole && TrimZeros(Padded(f, 4)) == l.fraction
    ensures size >= 0 && Digits(size / 10_000) == l.whole && TrimZeros(Padded(size % 10_000, 4)) == l.fraction
  {
    TwoParts(w, f);
  }

  lemma SizeParts(l: Literal)
    requires LiteralOk(l) && (l.fraction != [] ==> l.fraction[|l.fraction| - 1] != ZERO)
    ensures Size(l) >= 0 && Digits(Size(l) / 10_000) == l.whole && TrimZeros(Padded(Size(l) % 10_000, 4)) == l.fraction
  {
    WholeBack(l.whole);
    FilledValue(l.fraction);
    TrimOfFilled(l.fraction);
    PartsBack(l, ValueOf(l.whole), ValueOf(Filled(l.fraction)), Size(l));
  }

  lemma ZeroSize(l: Literal)
    requires LiteralOk(l) && (l.fraction != [] ==> l.fraction[|l.fraction| - 1] != ZERO) && Size(l) == 0
    ensures l.whole == [ZERO] && l.fraction == []
  {
    WholeBack(l.whole);
    FilledValue(l.fraction);
    ZeroFraction(l.fraction);
  }

  /** A canonical literal is determined by its amount. */
  lemma CanonicalFromUnits(l: Literal)
    requires LiteralOk(l) && Canonical(l)
    ensures FromUnits(Units(l)) == l
  {
    SizeParts(l);
    if Size(l) == 0 {
      ZeroSize(l);
    }
  }

  lemma ZeroFraction(fraction: Text)
    requires |fraction| <= 4 && AllDigits(fraction) && ValueOf(Filled(fraction)) == 0
    requires fraction != [] ==> fraction[|fraction| - 1] != ZERO
    ensures fraction == []
  {
    FilledValue(fraction);
    TrimOfFilled(fraction);
    PaddedZero(4);
    ZerosAre(4);
  }

  lemma {:induction false} PaddedZero(n: nat)
    ensures Padded(0, n) == Zeros(n)
  {
    if n > 0 {
      PaddedZero(n - 1);
    }
  }

  /** Accepted strings for the same amount are the same string. */
  lemma OneStringPerAmount(s: Text, t: Text)
    requires Accepts(s) && Accepts(t) && LiteralOk(Scan(s).value) && LiteralOk(Scan(t).value)
    requires Units(Scan(s).value) == Units(Scan(t).value)
    ensures s == t
  {
    AcceptsExactly(s);
    AcceptsExactly(t);
    ScanExactly(s, Scan(s).value);
    ScanExactly(t, Scan(t).value);
    CanonicalFromUnits(Scan(s).value);
    CanonicalFromUnits(Scan(t).value);
  }

  lemma FromUnitsOk(v: int)
    requires -1_000_000_000_000 < v < 1_000_000_000_000
    ensures LiteralOk(FromUnits(v))
  {
    var size := if v < 0 then -v else v;
    Powers();
    DigitsOf(size / 10_000);
    DigitsFew(size / 10_000, 8);
    PaddedLength(size % 10_000, 4);
    StripShortens(Padded(size % 10_000, 4), ZERO);
  }

  /** The fraction printed for `f` ten-thousandths. */
  lemma FractionOfUnits(f: nat)
    requires f < 10_000
    ensures var t := TrimZeros(Padded(f, 4)); |t| <= 4 && ValueOf(Filled(t)) == f && (t == [] ==> f == 0)
  {
    Powers();
    PaddedLength(f, 4);
    ValueOfPadded(f, 4);
    StripShortens(Padded(f, 4), ZERO);
    FilledOfTrim(Padded(f, 4), 4);
    ZerosAre(4);
    assert Padded(f, 4) + Zeros(0) == Padded(f, 4) && [] + Zeros(4) == Zeros(4);
  }

  lemma FromUnitsBack(v: int)
    requires LiteralOk(FromUnits(v))
    ensures Units(FromUnits(v)) == v && Canonical(FromUnits(v))
  {
    var size := if v < 0 then -v else v;
    DigitsOf(size / 10_000);
    FractionOfUnits(size % 10_000);
    StripShortens(Padded(size % 10_000, 4), ZERO);
    assert ValueOf([ZERO]) == 0 by {
      assert [ZERO][..0] == [];
      assert ValueOf([]) == 0;
    }
  }

  /** Every amount below the bound has an accepted string. */
  lemma EveryAmountHasOne(v: int)
    requires -1_000_000_000_000 < v < 1_000_000_000_000
    ensures LiteralOk(FromUnits(v)) && Units(FromUnits(v)) == v && Accepts(Write(FromUnits(v)))
  {
    FromUnitsOk(v);
    FromUnitsBack(v);
    ScanExactly(Write(FromUnits(v)), FromUnits(v));
    AcceptsExactly(Write(FromUnits(v)));
  }

  // ---- The amount is the Decimal's value ----

  lemma {:induction false} ValueOfAppended(a: Text, b: Text)
    requires AllDigits(a) && AllDigits(b)
    ensures ValueOf(a + b) == ValueOf(a) * Power(|b|) + ValueOf(b)
    decreases |b|
  {
    if b == [] {
      assert a + b == a;
    } else {
      var init, last := b[..|b| - 1], b[|b| - 1];
      ValueOfAppended(a, init);
      assert (a + b)[..|a + b| - 1] == a + init && (a + b)[|a + b| - 1] == last;
      ShiftProduct(ValueOf(a), Power(|init|), ValueOf(init), last - 48);
    }
  }

  lemma ShiftProduct(x: int, p: int, y: int, d: int)
    ensures (x * p + y) * 10 + d == x * (10 * p) + (y * 10 + d)
  {
    assert x * (10 * p) == (x * p) * 10;
  }

  lemma ScaledByZeros(s: Text, k: nat)
    requires AllDigits(s)
    ensures ValueOf(s + Zeros(k)) == ValueOf(s) * Power(k)
  {
    ZerosAre(k);
    ValueOfAppended(s, Zeros(k));
  }

  lemma ScaledByLength(a: Text, b: Text, k: nat)
    requires AllDigits(a) && AllDigits(b) && |b| == k
    ensures ValueOf(a + b) == ValueOf(a) * Power(k) + ValueOf(b)
  {
    ValueOfAppended(a, b);
  }

  lemma FilledText(whole: Text, fraction: Text)
    requires |fraction| <= 4
    ensures (whole + fraction) + Zeros(4 - |fraction|) == whole + Filled(fraction)
  {
  }

  lemma FilledByScale(whole: Text, fraction: Text)
    requires AllDigits(whole) && AllDigits(fraction) && |fraction| <= 4
    ensures ValueOf(whole + Filled(fraction)) == ValueOf(whole + fraction) * Power(4 - |fraction|)
  {
    ScaledByZeros(whole + fraction, 4 - |fraction|);
    FilledText(whole, fraction);
  }

  lemma FilledByParts(whole: Text, fraction: Text)
    requires AllDigits(whole) && AllDigits(fraction) && |fraction| <= 4
    ensures ValueOf(whole + Filled(fraction)) == ValueOf(whole) * 10_000 + ValueOf(Filled(fraction))
  {
    FilledValue(fraction);
    ScaledByLength(whole, Filled(fraction), 4);
    Powers();
  }

  /** Coefficient times the power of ten that the scale lacks is the size in ten-thousandths. */
  lemma UnitsAreValue(l: Literal)
    requires LiteralOk(l)
    ensures NumberOf(l).coefficient * Power(4 - NumberOf(l).scale) == Size(l)
  {
    FilledByScale(l.whole, l.fraction);
    FilledByParts(l.whole, l.fraction);
  }
}

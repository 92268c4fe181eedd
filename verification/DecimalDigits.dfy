/** Fixed-width decimal digits. */
module DecimalDigits {
  import opened Json
  import opened JsonRoundTrip

  const ZERO := 48

  /** The last `width` decimal digits of `n`. */
  function Padded(n: nat, width: nat): Text {
    if width == 0 then [] else Padded(n / 10, width - 1) + [ZERO + n % 10]
  }

  function Power(width: nat): nat {
    if width == 0 then 1 else 10 * Power(width - 1)
  }

  lemma Powers()
    ensures Power(2) == 100 && Power(4) == 10_000 && Power(8) == 100_000_000
  {
    assert Power(3) == 10 * Power(2);
    assert Power(5) == 10 * Power(4);
    assert Power(6) == 10 * Power(5);
    assert Power(7) == 10 * Power(6);
  }

  lemma {:induction false} PaddedLength(n: nat, width: nat)
    ensures |Padded(n, width)| == width && AllDigits(Padded(n, width))
  {
    if width > 0 {
      PaddedLength(n / 10, width - 1);
    }
  }

  /** A digit string is the padding of its value. */
  lemma {:induction false} PaddedOfValue(s: Text)
    requires AllDigits(s)
    ensures 0 <= ValueOf(s) < Power(|s|) && Padded(ValueOf(s), |s|) == s
  {
    if s != [] {
      var init, last := s[..|s| - 1], s[|s| - 1];
      PaddedOfValue(init);
      assert ValueOf(s) / 10 == ValueOf(init) && ValueOf(s) % 10 == last - 48;
      assert s == init + [last];
    }
  }

  lemma {:induction false} ValueOfPadded(n: nat, width: nat)
    requires n < Power(width)
    ensures ValueOf(Padded(n, width)) == n
  {
    if width > 0 {
      ValueOfPadded(n / 10, width - 1);
      PaddedLength(n / 10, width - 1);
      assert Padded(n, width)[..width - 1] == Padded(n / 10, width - 1);
    }
  }

  lemma {:induction false} DigitsArePadded(n: nat)
    ensures |Digits(n)| > 0 && Digits(n) == Padded(n, |Digits(n)|)
  {
    if n >= 10 {
      DigitsArePadded(n / 10);
    } else {
      assert Padded(n / 10, 0) == [];
    }
  }

  /** The value of a digit string has no more digits than the string, and as many if it has no leading zero. */
  lemma {:induction false} DigitCount(s: Text)
    requires s != [] && AllDigits(s)
    ensures ValueOf(s) >= 0 && |Digits(ValueOf(s))| <= |s|
    ensures s[0] != ZERO ==> ValueOf(s) > 0 && |Digits(ValueOf(s))| == |s|
  {
    var init, last := s[..|s| - 1], s[|s| - 1];
    if init == [] {
      assert ValueOf(init) == 0;
    } else {
      DigitCount(init);
      assert ValueOf(s) / 10 == ValueOf(init);
    }
  }

  lemma {:induction false} DigitsFew(n: nat, k: nat)
    requires k > 0 && n < Power(k)
    ensures |Digits(n)| <= k
  {
    if n >= 10 {
      assert Power(1) == 10;
      DigitsFew(n / 10, k - 1);
    }
  }
}

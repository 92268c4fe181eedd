/** Parsing the canonical text gives the value back. */
module JsonRoundTrip {
  import opened Common
  import opened Json

  predicate EncodableText(s: Text) {
    forall i :: 0 <= i < |s| ==> Encodable(s[i])
  }

  predicate High(c: int) {
    0xD800 <= c <= 0xDBFF
  }

  predicate Low(c: int) {
    0xDC00 <= c <= 0xDFFF
  }

  predicate PairAt(s: Text, i: int) {
    0 <= i < |s| - 1 && High(s[i]) && Low(s[i + 1])
  }

  predicate CodePoint(c: int) {
    0 <= c <= 0x10FFFF
  }

  /** Code points without a high surrogate directly before a low one.  A lone surrogate may occur. */
  predicate Unpaired(s: Text) {
    (forall i :: 0 <= i < |s| ==> CodePoint(s[i])) && forall i :: 0 <= i < |s| ==> !PairAt(s, i)
  }

  predicate AllDigits(s: Text) {
    forall i :: 0 <= i < |s| ==> IsDigit(s[i])
  }

  /** A literal that `repr` prints, written as `repr` writes it. */
  predicate IsRepr(fl: Repr, f: FloatLit) {
    && fl(f) == f
    && (f.whole == [48] || (f.whole != [] && AllDigits(f.whole) && f.whole[0] != 48))
    && AllDigits(f.fraction)
    && (f.exponent == [] || (|f.exponent| >= 2 && (f.exponent[0] == 43 || f.exponent[0] == 45) && AllDigits(f.exponent[1..])))
    && (f.fraction != [] || f.exponent != [])
  }

  /** A value that the printer can print. */
  predicate Printable(fl: Repr, v: Json)
    decreases v
  {
    match v
    case Str(s) => Unpaired(s)
    case Float(f) => IsRepr(fl, f)
    case Arr(es) => PrintableElements(fl, es)
    case Obj(ms) => DistinctKeys(ms) && PrintableMembers(fl, ms)
    case Unsupported => false
    case _ => true
  }

  predicate PrintableElements(fl: Repr, es: Elements)
    decreases es
  {
    es.Element? ==> Printable(fl, es.head) && PrintableElements(fl, es.tail)
  }

  predicate PrintableMembers(fl: Repr, ms: Members)
    decreases ms
  {
    ms.Member? ==> Unpaired(ms.key) && Printable(fl, ms.value) && PrintableMembers(fl, ms.rest)
  }

  // ---- Strings ----

  lemma HexDigitValue(d: int)
    requires 0 <= d < 16
    ensures HexValue(HexDigit(d)) == Some(d)
  {
  }

  lemma Hex4Unit(u: int, tail: Text)
    requires 0 <= u < 0x10000
    ensures UnitAt(Hex4(u) + tail) == Some(u)
  {
    HexPlaces(u);
    HexDigitValue(u / 4096);
    HexDigitValue(u / 256 % 16);
    HexDigitValue(u / 16 % 16);
    HexDigitValue(u % 16);
    var s := Hex4(u) + tail;
    assert s[2] == HexDigit(u / 4096) && s[3] == HexDigit(u / 256 % 16);
    assert s[4] == HexDigit(u / 16 % 16) && s[5] == HexDigit(u % 16);
  }

  lemma HexPlaces(u: int)
    requires 0 <= u < 0x10000
    ensures 0 <= u / 4096 < 16
    ensures u == u / 4096 * 4096 + u / 256 % 16 * 256 + u / 16 % 16 * 16 + u % 16
  {
    assert u == u / 16 * 16 + u % 16;
    assert u / 16 == u / 256 * 16 + u / 16 % 16;
    assert u / 256 == u / 4096 * 16 + u / 256 % 16;
  }

  /** The text continues with the escape of a low surrogate. */
  predicate LowNext(s: Text) {
    UnitAt(s).Some? && Low(UnitAt(s).value)
  }

  lemma UnicodeEscape(c: int, tail: Text)
    requires 0 <= c < 0x10000 && !(High(c) && LowNext(tail))
    ensures CharAt(Hex4(c) + tail) == Some((c, 6))
  {
    Hex4Unit(c, tail);
    assert (Hex4(c) + tail)[6..] == tail;
  }

  lemma SurrogatePair(c: int, tail: Text)
    requires 0x10000 <= c <= 0x10FFFF
    ensures CharAt(Hex4(0xD800 + (c - 0x10000) / 1024) + Hex4(0xDC00 + (c - 0x10000) % 1024) + tail) == Some((c, 12))
  {
    var high, low := 0xD800 + (c - 0x10000) / 1024, 0xDC00 + (c - 0x10000) % 1024;
    var second := Hex4(low) + tail;
    Hex4Unit(high, second);
    Hex4Unit(low, tail);
    assert Hex4(high) + Hex4(low) + tail == Hex4(high) + second;
    assert (Hex4(high) + second)[6..] == second;
  }

  lemma EscapedChar(c: int, tail: Text)
    requires CodePoint(c) && !(High(c) && LowNext(tail))
    ensures CharAt(Escape(c) + tail) == Some((c, |Escape(c)|))
    ensures (Escape(c) + tail)[0] != 34
  {
    if 32 <= c <= 126 || c == 10 || c == 13 || c == 9 || c == 12 || c == 8 {
    } else if c < 0x10000 {
      UnicodeEscape(c, tail);
    } else {
      SurrogatePair(c, tail);
    }
  }

  /** One step of the string parser, with the rest abstract. */
  lemma BodyStep(c: int, tail: Text, body: Text, rest: Text)
    requires CodePoint(c) && !(High(c) && LowNext(tail)) && ParseBody(tail) == Some((body, rest))
    ensures ParseBody(Escape(c) + tail) == Some(([c] + body, rest))
  {
    var text, n := Escape(c) + tail, |Escape(c)|;
    EscapedChar(c, tail);
    assert text[n..] == tail;
  }

  /** Printed text continues with the escape of a low surrogate only if the string does. */
  lemma LowNextShows(s: Text, rest: Text)
    requires forall i :: 0 <= i < |s| ==> CodePoint(s[i])
    ensures LowNext(EmitBody(s, rest)) ==> s != [] && Low(s[0])
  {
    if s != [] {
      var c, tail := s[0], EmitBody(s[1..], rest);
      if c < 0x10000 {
        Hex4Unit(c, tail);
        assert (Escape(c) + tail)[0] == Escape(c)[0];
        assert |Escape(c)| > 1 ==> (Escape(c) + tail)[1] == Escape(c)[1];
      } else {
        var high, low := 0xD800 + (c - 0x10000) / 1024, 0xDC00 + (c - 0x10000) % 1024;
        Hex4Unit(high, Hex4(low) + tail);
        assert Escape(c) + tail == Hex4(high) + (Hex4(low) + tail);
      }
    }
  }

  lemma UnpairedTail(s: Text)
    requires Unpaired(s) && s != []
    ensures Unpaired(s[1..])
  {
    forall i | 0 <= i < |s| - 1 ensures !PairAt(s[1..], i) {
      assert !PairAt(s, i + 1);
    }
  }

  lemma Uncons(c: int, s: Text)
    ensures ([c] + s)[0] == c && ([c] + s)[1..] == s && [c] + s != []
  {
  }

  lemma {:induction false} BodyRoundTrip(s: Text, rest: Text)
    requires Unpaired(s)
    ensures ParseBody(EmitBody(s, rest)) == Some((s, rest))
    decreases |s|
  {
    if s == [] {
      Uncons(34, rest);
    } else {
      UnpairedTail(s);
      BodyRoundTrip(s[1..], rest);
      LowNextShows(s[1..], rest);
      assert !PairAt(s, 0);
      BodyStep(s[0], EmitBody(s[1..], rest), s[1..], rest);
      assert [s[0]] + s[1..] == s;
    }
  }

  // ---- Numbers ----

  lemma {:induction false} TakeAllDigits(digits: Text, rest: Text)
    requires AllDigits(digits) && (rest == [] || !IsDigit(rest[0]))
    ensures TakeDigits(digits + rest) == (digits, rest)
    decreases |digits|
  {
    if digits == [] {
      assert digits + rest == rest;
    } else {
      assert (digits + rest)[1..] == digits[1..] + rest;
      TakeAllDigits(digits[1..], rest);
      assert [digits[0]] + digits[1..] == digits;
    }
  }

  lemma {:induction false} DigitsOf(n: nat)
    ensures Digits(n) != [] && AllDigits(Digits(n)) && ValueOf(Digits(n)) == n
    ensures n > 0 ==> Digits(n)[0] != 48
    ensures n == 0 ==> Digits(n) == [48]
  {
    if n < 10 {
      assert [48 + n][..0] == [];
      assert ValueOf([]) == 0;
    } else {
      DigitsOf(n / 10);
      var d := Digits(n);
      assert d[..|d| - 1] == Digits(n / 10);
    }
  }

  lemma TakeWholeOf(whole: Text, rest: Text)
    requires whole == [48] || (whole != [] && AllDigits(whole) && whole[0] != 48)
    requires rest == [] || !IsDigit(rest[0])
    ensures TakeWhole(whole + rest) == Some((whole, rest))
  {
    TakeAllDigits(whole, rest);
  }

  /** What follows a value in canonical text, or the end. */
  predicate Follows(rest: Text) {
    rest == [] || rest[0] == 44 || rest[0] == 93 || rest[0] == 125 || rest[0] == 10
  }

  lemma UnsignedInt(fl: Repr, negative: bool, m: int, rest: Text)
    requires m >= 0 && Follows(rest)
    ensures ParseUnsigned(fl, negative, Digits(m) + rest) == Some((Int(if negative then -m else m), rest))
    ensures Digits(m) != [] && IsDigit(Digits(m)[0])
  {
    DigitsOf(m);
    TakeWholeOf(Digits(m), rest);
    assert TakeFraction(rest) == ([], rest);
    assert TakeExponent(rest) == ([], rest);
  }

  lemma NumberSign(fl: Repr, body: Text)
    requires body != [] && IsDigit(body[0])
    ensures ParseNumber(fl, body) == ParseUnsigned(fl, false, body)
    ensures ParseNumber(fl, [45] + body) == ParseUnsigned(fl, true, body)
  {
    Uncons(45, body);
  }

  lemma IntRoundTrip(fl: Repr, n: int, rest: Text)
    requires Follows(rest)
    ensures ParseNumber(fl, EmitInt(n, rest)) == Some((Int(n), rest))
    ensures EmitInt(n, rest) != [] && (EmitInt(n, rest)[0] == 45 || IsDigit(EmitInt(n, rest)[0]))
  {
    if n < 0 {
      UnsignedInt(fl, true, -n, rest);
      NumberSign(fl, Digits(-n) + rest);
    } else {
      UnsignedInt(fl, false, n, rest);
      NumberSign(fl, Digits(n) + rest);
    }
  }

  lemma FractionOf(fraction: Text, rest: Text)
    requires AllDigits(fraction) && (rest == [] || (!IsDigit(rest[0]) && rest[0] != 46))
    ensures TakeFraction(EmitFraction(fraction, rest)) == (fraction, rest)
    ensures EmitFraction(fraction, rest) == [] || !IsDigit(EmitFraction(fraction, rest)[0])
  {
    if fraction != [] {
      Uncons(46, fraction + rest);
      TakeAllDigits(fraction, rest);
      assert (fraction + rest)[0] == fraction[0];
    }
  }

  lemma ExponentOf(exponent: Text, rest: Text)
    requires exponent == [] || (|exponent| >= 2 && (exponent[0] == 43 || exponent[0] == 45) && AllDigits(exponent[1..]))
    requires Follows(rest)
    ensures TakeExponent(EmitExponent(exponent, rest)) == (exponent, rest)
    ensures EmitExponent(exponent, rest) == [] ||
            (!IsDigit(EmitExponent(exponent, rest)[0]) && EmitExponent(exponent, rest)[0] != 46)
  {
    if exponent != [] {
      var s := [101] + (exponent + rest);
      assert s[1] == exponent[0] && s[2] == exponent[1];
      assert s[2..] == exponent[1..] + rest;
      TakeAllDigits(exponent[1..], rest);
      assert exponent == [exponent[0]] + exponent[1..];
    }
  }

  lemma UnsignedFloat(fl: Repr, f: FloatLit, rest: Text)
    requires IsRepr(fl, f) && Follows(rest)
    ensures ParseUnsigned(fl, f.negative, f.whole + EmitFraction(f.fraction, EmitExponent(f.exponent, rest)))
            == Some((Float(f), rest))
  {
    var afterFraction := EmitExponent(f.exponent, rest);
    ExponentOf(f.exponent, rest);
    FractionOf(f.fraction, afterFraction);
    TakeWholeOf(f.whole, EmitFraction(f.fraction, afterFraction));
  }

  lemma FloatRoundTrip(fl: Repr, f: FloatLit, rest: Text)
    requires IsRepr(fl, f) && Follows(rest)
    ensures ParseNumber(fl, EmitFloat(f, rest)) == Some((Float(f), rest))
    ensures EmitFloat(f, rest) != [] && (EmitFloat(f, rest)[0] == 45 || IsDigit(EmitFloat(f, rest)[0]))
  {
    var unsigned := f.whole + EmitFraction(f.fraction, EmitExponent(f.exponent, rest));
    UnsignedFloat(fl, f, rest);
    assert unsigned[0] == f.whole[0];
    NumberSign(fl, unsigned);
  }

  // ---- Values ----

  lemma SkipNothing(s: Text)
    requires s != [] && !IsSpace(s[0])
    ensures SkipSpace(s) == s
  {
  }

  lemma FirstOfValue(fl: Repr, v: Json, rest: Text)
    requires Printable(fl, v) && Follows(rest)
    ensures Emit(v, rest) != [] && !IsSpace(Emit(v, rest)[0]) && Emit(v, rest)[0] != 93 && Emit(v, rest)[0] != 125
  {
    match v
    case Int(n) => IntRoundTrip(fl, n, rest);
    case Float(f) => FloatRoundTrip(fl, f, rest);
    case _ =>
  }

  lemma WordValue(fl: Repr, v: Json, rest: Text)
    requires v.Null? || v.Bool?
    ensures ParseValue(fl, Emit(v, rest)) == Some((v, rest))
  {
    var word := if v.Null? then [110, 117, 108, 108] else if v.b then [116, 114, 117, 101] else [102, 97, 108, 115, 101];
    var s := Emit(v, rest);
    assert s == word + rest && s[|word|..] == rest && s[0] == word[0];
  }

  lemma NumberStarts(fl: Repr, s: Text)
    requires s != [] && (s[0] == 45 || IsDigit(s[0]))
    ensures ParseValue(fl, s) == ParseNumber(fl, s)
  {
    assert s[0] != 34 && s[0] != 123 && s[0] != 91 && s[0] != 110 && s[0] != 116 && s[0] != 102;
  }

  lemma IntValue(fl: Repr, n: int, rest: Text)
    requires Follows(rest)
    ensures ParseValue(fl, EmitInt(n, rest)) == Some((Int(n), rest))
  {
    IntRoundTrip(fl, n, rest);
    NumberStarts(fl, EmitInt(n, rest));
  }

  lemma FloatValue(fl: Repr, f: FloatLit, rest: Text)
    requires IsRepr(fl, f) && Follows(rest)
    ensures ParseValue(fl, EmitFloat(f, rest)) == Some((Float(f), rest))
  {
    FloatRoundTrip(fl, f, rest);
    NumberStarts(fl, EmitFloat(f, rest));
  }

  lemma {:induction false} ValueRoundTrip(fl: Repr, v: Json, rest: Text)
    requires Printable(fl, v) && Follows(rest)
    ensures ParseValue(fl, Emit(v, rest)) == Some((v, rest))
    decreases v, 0
  {
    match v
    case Str(t) =>
      BodyRoundTrip(t, rest);
      Uncons(34, EmitBody(t, rest));
    case Int(n) => IntValue(fl, n, rest);
    case Float(f) => FloatValue(fl, f, rest);
    case Arr(es) =>
      Uncons(91, EmitElements(es, rest));
      if es.Element? {
        ElementsRoundTrip(fl, es, rest);
        SkipNothing(EmitElements(es, rest));
      } else {
        Uncons(93, rest);
        SkipNothing([93] + rest);
      }
    case Obj(ms) =>
      Uncons(123, EmitMembers(ms, rest));
      if ms.Member? {
        MembersRoundTrip(fl, ms, rest);
        SkipNothing(EmitMembers(ms, rest));
      } else {
        Uncons(125, rest);
        SkipNothing([125] + rest);
      }
    case _ => WordValue(fl, v, rest);
  }

  lemma LastElement(fl: Repr, s: Text, value: Json, rest: Text)
    requires ParseValue(fl, s) == Some((value, [93] + rest))
    ensures ParseElements(fl, s) == Some((Element(value, NoElements), rest))
  {
    Uncons(93, rest);
    SkipNothing([93] + rest);
  }

  lemma NextElement(fl: Repr, s: Text, value: Json, inner: Text, es: Elements, rest: Text)
    requires ParseValue(fl, s) == Some((value, [44] + inner)) && inner != [] && !IsSpace(inner[0])
    requires ParseElements(fl, inner) == Some((es, rest))
    ensures ParseElements(fl, s) == Some((Element(value, es), rest))
  {
    Uncons(44, inner);
    SkipNothing([44] + inner);
    SkipNothing(inner);
  }

  lemma {:induction false} ElementsRoundTrip(fl: Repr, es: Elements, rest: Text)
    requires es.Element? && PrintableElements(fl, es)
    ensures ParseElements(fl, EmitElements(es, rest)) == Some((es, rest))
    ensures EmitElements(es, rest) != [] && !IsSpace(EmitElements(es, rest)[0]) && EmitElements(es, rest)[0] != 93
    decreases es, 1
  {
    var s := EmitElements(es, rest);
    if es.tail.NoElements? {
      FirstOfValue(fl, es.head, [93] + rest);
      ValueRoundTrip(fl, es.head, [93] + rest);
      LastElement(fl, s, es.head, rest);
    } else {
      var inner := EmitElements(es.tail, rest);
      FirstOfValue(fl, es.head, [44] + inner);
      ValueRoundTrip(fl, es.head, [44] + inner);
      ElementsRoundTrip(fl, es.tail, rest);
      NextElement(fl, s, es.head, inner, es.tail, rest);
    }
  }

  lemma KeyRoundTrip(key: Text, rest: Text)
    requires Unpaired(key) && rest != [] && !IsSpace(rest[0])
    ensures ParseKey(EmitString(key, [58] + rest)) == Some((key, rest))
    ensures EmitString(key, [58] + rest) != [] && EmitString(key, [58] + rest)[0] == 34
  {
    BodyRoundTrip(key, [58] + rest);
    Uncons(34, EmitBody(key, [58] + rest));
    Uncons(58, rest);
    SkipNothing([58] + rest);
    SkipNothing(rest);
  }

  lemma LastMember(fl: Repr, s: Text, key: Text, afterKey: Text, value: Json, rest: Text)
    requires ParseKey(s) == Some((key, afterKey)) && ParseValue(fl, afterKey) == Some((value, [125] + rest))
    ensures ParseMembers(fl, s) == Some((Member(key, value, NoMembers), rest))
  {
    Uncons(125, rest);
    SkipNothing([125] + rest);
  }

  lemma NextMember(fl: Repr, s: Text, key: Text, afterKey: Text, value: Json, inner: Text, ms: Members, rest: Text)
    requires ParseKey(s) == Some((key, afterKey)) && ParseValue(fl, afterKey) == Some((value, [44] + inner))
    requires inner != [] && !IsSpace(inner[0]) && ParseMembers(fl, inner) == Some((ms, rest))
    ensures ParseMembers(fl, s) == Some((Member(key, value, ms), rest))
  {
    Uncons(44, inner);
    SkipNothing([44] + inner);
    SkipNothing(inner);
  }

  lemma {:induction false} MembersRoundTrip(fl: Repr, ms: Members, rest: Text)
    requires ms.Member? && PrintableMembers(fl, ms)
    ensures ParseMembers(fl, EmitMembers(ms, rest)) == Some((ms, rest))
    ensures EmitMembers(ms, rest) != [] && EmitMembers(ms, rest)[0] == 34
    decreases ms, 1
  {
    var s := EmitMembers(ms, rest);
    var more := if ms.rest.NoMembers? then [125] + rest else [44] + EmitMembers(ms.rest, rest);
    FirstOfValue(fl, ms.value, more);
    KeyRoundTrip(ms.key, Emit(ms.value, more));
    ValueRoundTrip(fl, ms.value, more);
    if ms.rest.NoMembers? {
      LastMember(fl, s, ms.key, Emit(ms.value, more), ms.value, rest);
    } else {
      MembersRoundTrip(fl, ms.rest, rest);
      NextMember(fl, s, ms.key, Emit(ms.value, more), ms.value, EmitMembers(ms.rest, rest), ms.rest, rest);
    }
  }

  /** The canonical text of an object, with its newline, parses back to exactly that object. */
  lemma ObjectRoundTrip(fl: Repr, ms: Members)
    requires Printable(fl, Obj(ms))
    ensures ParseObject(fl, Emit(Obj(ms), [10])) == Some(ms)
  {
    ValueRoundTrip(fl, Obj(ms), [10]);
    FirstOfValue(fl, Obj(ms), [10]);
    SkipNothing(Emit(Obj(ms), [10]));
    assert [10][1..] == [];
  }
}

/** Strings that hold surrogates: which of them print alike, and which of them a JSON text can give. */
module Surrogates {
  import opened Common
  import opened Json
  import opened JsonRoundTrip
  import opened ArtifactPayload

  // ---- Strings that print alike ----

  predicate CodePoints(s: Text) {
    forall i :: 0 <= i < |s| ==> CodePoint(s[i])
  }

  function Join(high: int, low: int): int {
    0x10000 + (high - 0xD800) * 1024 + (low - 0xDC00)
  }

  /** Every high surrogate directly before a low one is merged with it, from left to right. */
  function Joined(s: Text): Text {
    if s == [] then []
    else if PairAt(s, 0) then [Join(s[0], s[1])] + Joined(s[2..])
    else [s[0]] + Joined(s[1..])
  }

  lemma UnpairedFrom(c: int, s: Text)
    requires CodePoint(c) && Unpaired(s) && !(High(c) && s != [] && Low(s[0]))
    ensures Unpaired([c] + s)
  {
    forall i | 0 <= i < |[c] + s| ensures !PairAt([c] + s, i) {
      assert i > 0 ==> !PairAt(s, i - 1);
    }
  }

  lemma {:induction false} JoinedIsUnpaired(s: Text)
    requires CodePoints(s)
    ensures Unpaired(Joined(s))
    ensures Joined(s) != [] && Low(Joined(s)[0]) ==> s != [] && Low(s[0])
    decreases |s|
  {
    if s == [] {
    } else if PairAt(s, 0) {
      JoinedIsUnpaired(s[2..]);
      UnpairedFrom(Join(s[0], s[1]), Joined(s[2..]));
    } else {
      JoinedIsUnpaired(s[1..]);
      UnpairedFrom(s[0], Joined(s[1..]));
    }
  }

  lemma {:induction false} UnpairedIsJoined(s: Text)
    requires Unpaired(s)
    ensures Joined(s) == s
    decreases |s|
  {
    if s != [] {
      assert !PairAt(s, 0);
      UnpairedTail(s);
      UnpairedIsJoined(s[1..]);
    }
  }

  lemma PairEscape(high: int, low: int)
    requires High(high) && Low(low)
    ensures Escape(Join(high, low)) == Escape(high) + Escape(low)
  {
    var c := Join(high, low);
    assert c - 0x10000 == (high - 0xD800) * 1024 + (low - 0xDC00) && 0 <= low - 0xDC00 < 1024;
    assert (c - 0x10000) / 1024 == high - 0xD800 && (c - 0x10000) % 1024 == low - 0xDC00;
  }

  lemma {:induction false} JoinedPrintsAlike(s: Text, rest: Text)
    ensures EmitBody(Joined(s), rest) == EmitBody(s, rest)
    decreases |s|
  {
    if s == [] {
    } else if PairAt(s, 0) {
      JoinedPrintsAlike(s[2..], rest);
      PairEscape(s[0], s[1]);
      Uncons(Join(s[0], s[1]), Joined(s[2..]));
      assert s[1..][1..] == s[2..] && s[1..][0] == s[1];
      SamePieces(Escape(s[0]), Escape(s[1]), EmitBody(s[2..], rest));
    } else {
      JoinedPrintsAlike(s[1..], rest);
      Uncons(s[0], Joined(s[1..]));
    }
  }

  lemma SamePieces(a: Text, b: Text, rest: Text)
    ensures (a + b) + rest == a + (b + rest)
  {
  }

  /** Two strings print alike exactly when they are the same after merging the surrogate pairs in them; of
      strings without such pairs no two print alike. */
  lemma PrintAlikeExactly(a: Text, b: Text)
    requires CodePoints(a) && CodePoints(b)
    ensures Payload(Str(a)) == Payload(Str(b)) <==> Joined(a) == Joined(b)
    ensures Unpaired(a) && Unpaired(b) ==> (Payload(Str(a)) == Payload(Str(b)) <==> a == b)
  {
    if Unpaired(a) && Unpaired(b) {
      UnpairedIsJoined(a);
      UnpairedIsJoined(b);
    }
    JoinedPrintsAlike(a, [10]);
    JoinedPrintsAlike(b, [10]);
    JoinedIsUnpaired(a);
    JoinedIsUnpaired(b);
    BodyRoundTrip(Joined(a), [10]);
    BodyRoundTrip(Joined(b), [10]);
    Uncons(34, EmitBody(a, [10]));
    Uncons(34, EmitBody(b, [10]));
  }

  // ---- Strings that a JSON text can give ----

  lemma UnitRange(s: Text)
    ensures UnitAt(s).Some? ==> 0 <= UnitAt(s).value < 0x10000
  {
  }

  lemma EncodableSuffix(s: Text, n: nat)
    requires EncodableText(s) && n <= |s|
    ensures EncodableText(s[n..])
  {
  }

  /** What the character at the start of a text can be, and what then follows it. */
  lemma CharIs(s: Text)
    requires EncodableText(s) && CharAt(s).Some?
    ensures CodePoint(CharAt(s).value.0)
    ensures Low(CharAt(s).value.0) ==> LowNext(s)
    ensures High(CharAt(s).value.0) ==> !LowNext(s[CharAt(s).value.1..])
  {
    UnitRange(s);
    if |s| >= 6 {
      UnitRange(s[6..]);
    }
  }

  /** A JSON text without surrogates gives strings in which no high surrogate is directly before a low one:
      the parser merges the escapes of such a pair. */
  lemma {:induction false} ParsedIsUnpaired(s: Text)
    requires EncodableText(s) && ParseBody(s).Some?
    ensures Unpaired(ParseBody(s).value.0) && EncodableText(ParseBody(s).value.1)
    ensures ParseBody(s).value.0 != [] && Low(ParseBody(s).value.0[0]) ==> LowNext(s)
    decreases |s|
  {
    if s[0] != 34 {
      var (c, n) := CharAt(s).value;
      CharIs(s);
      EncodableSuffix(s, n);
      ParsedIsUnpaired(s[n..]);
      UnpairedFrom(c, ParseBody(s[n..]).value.0);
    }
  }

  // ---- Values that a JSON text can give ----

  /** No string and no key in the value holds such a pair. */
  predicate Tidy(v: Json)
    decreases v
  {
    match v
    case Str(s) => Unpaired(s)
    case Arr(es) => TidyElements(es)
    case Obj(ms) => TidyMembers(ms)
    case _ => true
  }

  predicate TidyElements(es: Elements)
    decreases es
  {
    es.Element? ==> Tidy(es.head) && TidyElements(es.tail)
  }

  predicate TidyMembers(ms: Members)
    decreases ms
  {
    ms.Member? ==> Unpaired(ms.key) && Tidy(ms.value) && TidyMembers(ms.rest)
  }

  lemma {:induction false} SpaceRest(s: Text)
    requires EncodableText(s)
    ensures EncodableText(SkipSpace(s))
  {
    if s != [] && IsSpace(s[0]) {
      SpaceRest(s[1..]);
    }
  }

  lemma DigitsRest(s: Text)
    requires EncodableText(s)
    ensures EncodableText(TakeDigits(s).1)
  {
    var r := TakeDigits(s);
    assert forall i :: 0 <= i < |r.1| ==> r.1[i] == s[|r.0| + i];
  }

  lemma NumberRest(fl: Repr, s: Text)
    requires EncodableText(s) && ParseNumber(fl, s).Some?
    ensures EncodableText(ParseNumber(fl, s).value.1) && Tidy(ParseNumber(fl, s).value.0)
  {
    var unsigned := if s != [] && s[0] == 45 then s[1..] else s;
    var afterWhole := TakeWhole(unsigned).value.1;
    DigitsRest(unsigned);
    assert EncodableText(afterWhole);
    if afterWhole != [] {
      DigitsRest(afterWhole[1..]);
    }
    var afterFraction := TakeFraction(afterWhole).1;
    assert EncodableText(afterFraction);
    if |afterFraction| >= 2 {
      DigitsRest(afterFraction[1..]);
      DigitsRest(afterFraction[2..]);
    }
    assert EncodableText(TakeExponent(afterFraction).1);
  }

  /** Every value parsed from a text without surrogates is tidy, and so is what follows it. */
  lemma {:induction false} ParsedIsTidy(fl: Repr, s: Text)
    requires EncodableText(s) && ParseValue(fl, s).Some?
    ensures Tidy(ParseValue(fl, s).value.0) && EncodableText(ParseValue(fl, s).value.1)
    decreases |s|, 1
  {
    if s[0] == 34 {
      ParsedIsUnpaired(s[1..]);
    } else if s[0] == 123 {
      SpaceRest(s[1..]);
      var inner := SkipSpace(s[1..]);
      if !(inner != [] && inner[0] == 125) {
        ParsedMembersAreTidy(fl, inner);
      }
    } else if s[0] == 91 {
      SpaceRest(s[1..]);
      var inner := SkipSpace(s[1..]);
      if !(inner != [] && inner[0] == 93) {
        ParsedElementsAreTidy(fl, inner);
      }
    } else if s[0] == 110 || s[0] == 116 || s[0] == 102 {
    } else {
      NumberRest(fl, s);
    }
  }

  lemma KeyIsTidy(s: Text)
    requires EncodableText(s) && ParseKey(s).Some?
    ensures Unpaired(ParseKey(s).value.0) && EncodableText(ParseKey(s).value.1)
  {
    ParsedIsUnpaired(s[1..]);
    var afterKey := ParseBody(s[1..]).value.1;
    SpaceRest(afterKey);
    SpaceRest(SkipSpace(afterKey)[1..]);
  }

  lemma {:induction false} ParsedMembersAreTidy(fl: Repr, s: Text)
    requires EncodableText(s) && ParseMembers(fl, s).Some?
    ensures TidyMembers(ParseMembers(fl, s).value.0) && EncodableText(ParseMembers(fl, s).value.1)
    decreases |s|, 0
  {
    KeyIsTidy(s);
    var afterKey := ParseKey(s).value.1;
    ParsedIsTidy(fl, afterKey);
    var afterValue := ParseValue(fl, afterKey).value.1;
    SpaceRest(afterValue);
    var next := SkipSpace(afterValue);
    if next[0] == 44 {
      SpaceRest(next[1..]);
      ParsedMembersAreTidy(fl, SkipSpace(next[1..]));
    }
  }

  lemma {:induction false} ParsedElementsAreTidy(fl: Repr, s: Text)
    requires EncodableText(s) && ParseElements(fl, s).Some?
    ensures TidyElements(ParseElements(fl, s).value.0) && EncodableText(ParseElements(fl, s).value.1)
    decreases |s|, 2
  {
    ParsedIsTidy(fl, s);
    var afterValue := ParseValue(fl, s).value.1;
    SpaceRest(afterValue);
    var next := SkipSpace(afterValue);
    if next[0] == 44 {
      SpaceRest(next[1..]);
      ParsedElementsAreTidy(fl, SkipSpace(next[1..]));
    }
  }
}

/** The late test of `_artifact_payload_bytes` on the printed text: which values it refuses. */
module ClaimText {
  import opened Json
  import opened JsonRoundTrip
  import opened TextOrder
  import opened ArtifactJson
  import opened ArtifactBytes
  import opened ArtifactPayload

  const QUOTED_CLAIM: Text := [34] + CLAIM_KEY
  const IS_TRUE: Text := [58, 116, 114, 117, 101]
  const AFTER_QUOTE: Text := CLAIM_KEY + [34] + IS_TRUE

  /** The text ends in a quote and the claim key. */
  predicate EndsQuoted(s: Text) {
    s != [] && (s == QUOTED_CLAIM || EndsQuoted(s[1..]))
  }

  /** A key that prints with the claim key between quotes at its end. */
  predicate ClaimLike(key: Text) {
    key == CLAIM_KEY || EndsQuoted(key)
  }

  /** Some member at some depth has such a key and the value true. */
  predicate SaysTrue(v: Json)
    decreases v
  {
    match v
    case Arr(es) => ElementsSayTrue(es)
    case Obj(ms) => MembersSayTrue(ms)
    case _ => false
  }

  predicate ElementsSayTrue(es: Elements)
    decreases es
  {
    es.Element? && (SaysTrue(es.head) || ElementsSayTrue(es.tail))
  }

  predicate MembersSayTrue(ms: Members)
    decreases ms
  {
    ms.Member? && ((ClaimLike(ms.key) && ms.value == Bool(true)) || SaysTrue(ms.value) || MembersSayTrue(ms.rest))
  }

  // ---- Where the pattern can begin ----

  predicate Found(pattern: Text, s: Text) {
    pattern <= s || (s != [] && Found(pattern, s[1..]))
  }

  lemma Shifted(s: Text, i: nat, n: nat)
    requires 0 < i && i + n <= |s|
    ensures s[1..][i - 1..i - 1 + n] == s[i..i + n]
  {
  }

  lemma OccursLater(pattern: Text, s: Text)
    requires s != [] && Occurs(pattern, s[1..])
    ensures Occurs(pattern, s)
  {
    var i :| 0 <= i <= |s| - 1 && OccursAt(pattern, s[1..], i);
    Shifted(s, i + 1, |pattern|);
    assert OccursAt(pattern, s, i + 1);
  }

  lemma OccursHereOrLater(pattern: Text, s: Text)
    requires s != [] && Occurs(pattern, s) && !(pattern <= s)
    ensures Occurs(pattern, s[1..])
  {
    var i :| 0 <= i <= |s| && OccursAt(pattern, s, i);
    assert i > 0;
    Shifted(s, i, |pattern|);
    assert OccursAt(pattern, s[1..], i - 1);
  }

  lemma {:induction false} FoundIsOccurs(pattern: Text, s: Text)
    ensures Found(pattern, s) <==> Occurs(pattern, s)
  {
    if pattern <= s {
      assert s[..|pattern|] == pattern && OccursAt(pattern, s, 0);
    } else if s != [] {
      FoundIsOccurs(pattern, s[1..]);
      if Occurs(pattern, s[1..]) {
        OccursLater(pattern, s);
      } else if Occurs(pattern, s) {
        OccursHereOrLater(pattern, s);
      }
    }
  }

  predicate Quoteless(s: Text) {
    forall i :: 0 <= i < |s| ==> s[i] != 34
  }

  lemma ClaimBegins()
    ensures CLAIM_TEXT == [34] + AFTER_QUOTE && |CLAIM_KEY| == 20 && CLAIM_KEY[0] == 99
    ensures forall i :: 0 <= i < |CLAIM_KEY| ==> 95 <= CLAIM_KEY[i] <= 122
  {
  }

  /** The pattern cannot begin in text without quotes. */
  lemma {:induction false} SkipQuoteless(w: Text, rest: Text)
    requires Quoteless(w)
    ensures Found(CLAIM_TEXT, w + rest) <==> Found(CLAIM_TEXT, rest)
  {
    ClaimBegins();
    if w == [] {
      assert w + rest == rest;
    } else {
      assert (w + rest)[0] == w[0] && (w + rest)[1..] == w[1..] + rest;
      SkipQuoteless(w[1..], rest);
    }
  }

  lemma AfterQuote(rest: Text)
    ensures Found(CLAIM_TEXT, [34] + rest) <==> AFTER_QUOTE <= rest || Found(CLAIM_TEXT, rest)
  {
    ClaimBegins();
    assert ([34] + rest)[1..] == rest;
  }

  // ---- Strings ----

  lemma SamePrefix(c: int, x: Text, d: int, y: Text)
    ensures [c] + x <= [d] + y <==> c == d && x <= y
  {
    var a, b := [c] + x, [d] + y;
    assert a[0] == c && b[0] == d && a[1..] == x && b[1..] == y;
    if a <= b {
      assert b[..|a|][1..] == y[..|x|];
    }
    if c == d && x <= y {
      assert b[..|a|] == [d] + y[..|x|];
    }
  }

  /** Letters and the underscore print as themselves, and nothing else prints as one of them. */
  lemma LetterPrints(c: int, d: int, tail: Text)
    requires 95 <= c <= 122
    ensures (Escape(d) + tail)[0] == c <==> d == c
    ensures (Escape(d) + tail)[0] != 34
    ensures Escape(c) == [c]
  {
  }

  /** A word of letters and then a closing quote: the string is that word. */
  lemma {:induction false} WordThenEnd(w: Text, t: Text, rest: Text)
    requires forall i :: 0 <= i < |w| ==> 95 <= w[i] <= 122
    ensures w + [34] + IS_TRUE <= EmitBody(t, rest) <==> t == w && IS_TRUE <= rest
    decreases |w|
  {
    var more := w + [34] + IS_TRUE;
    if w == [] {
      assert more == [34] + IS_TRUE;
      if t == [] {
        SamePrefix(34, IS_TRUE, 34, rest);
      } else {
        LetterPrints(95, t[0], EmitBody(t[1..], rest));
      }
    } else {
      assert more == [w[0]] + (w[1..] + [34] + IS_TRUE);
      if t == [] {
        SamePrefix(w[0], w[1..] + [34] + IS_TRUE, 34, rest);
      } else {
        LetterPrints(w[0], t[0], EmitBody(t[1..], rest));
        WordThenEnd(w[1..], t[1..], rest);
        SamePrefix(w[0], w[1..] + [34] + IS_TRUE, t[0], EmitBody(t[1..], rest));
        assert w == [w[0]] + w[1..] && t == [t[0]] + t[1..];
      }
    }
  }

  lemma ClaimThenEnd(t: Text, rest: Text)
    ensures AFTER_QUOTE <= EmitBody(t, rest) <==> t == CLAIM_KEY && IS_TRUE <= rest
  {
    ClaimBegins();
    WordThenEnd(CLAIM_KEY, t, rest);
    assert AFTER_QUOTE == CLAIM_KEY + [34] + IS_TRUE;
  }

  lemma HexIsQuoteless(u: int)
    requires 0 <= u < 0x10000
    ensures Quoteless(Hex4(u))
  {
    HexPlaces(u);
  }

  lemma EscapeIsQuoteless(c: int)
    requires CodePoint(c) && c != 34
    ensures Quoteless(Escape(c))
  {
    if c >= 0x10000 {
      HexIsQuoteless(0xD800 + (c - 0x10000) / 1024);
      HexIsQuoteless(0xDC00 + (c - 0x10000) % 1024);
    } else {
      HexIsQuoteless(c);
    }
  }

  lemma EscapedQuote(tail: Text)
    ensures Found(CLAIM_TEXT, Escape(34) + tail) <==> AFTER_QUOTE <= tail || Found(CLAIM_TEXT, tail)
  {
    assert Escape(34) + tail == [92] + ([34] + tail);
    SkipQuoteless([92], [34] + tail);
    AfterQuote(tail);
  }

  lemma QuotedStep(s: Text)
    requires s != []
    ensures EndsQuoted(s) <==> (s[0] == 34 && s[1..] == CLAIM_KEY) || EndsQuoted(s[1..])
  {
    assert s == [s[0]] + s[1..];
    assert QUOTED_CLAIM[0] == 34 && QUOTED_CLAIM[1..] == CLAIM_KEY;
  }

  lemma {:induction false} BodyFound(s: Text, rest: Text)
    requires Unpaired(s) && (rest == [] || rest[0] != 99)
    ensures Found(CLAIM_TEXT, EmitBody(s, rest)) <==> (EndsQuoted(s) && IS_TRUE <= rest) || Found(CLAIM_TEXT, rest)
    decreases |s|
  {
    if s == [] {
      AfterQuote(rest);
      ClaimBegins();
    } else {
      UnpairedTail(s);
      BodyFound(s[1..], rest);
      QuotedStep(s);
      if s[0] == 34 {
        EscapedQuote(EmitBody(s[1..], rest));
        ClaimThenEnd(s[1..], rest);
      } else {
        EscapeIsQuoteless(s[0]);
        SkipQuoteless(Escape(s[0]), EmitBody(s[1..], rest));
      }
    }
  }

  lemma StringFound(s: Text, rest: Text)
    requires Unpaired(s) && (rest == [] || rest[0] != 99)
    ensures Found(CLAIM_TEXT, EmitString(s, rest)) <==> (ClaimLike(s) && IS_TRUE <= rest) || Found(CLAIM_TEXT, rest)
  {
    AfterQuote(EmitBody(s, rest));
    ClaimThenEnd(s, rest);
    BodyFound(s, rest);
  }

  // ---- Numbers ----

  lemma IntFound(n: int, rest: Text)
    ensures Found(CLAIM_TEXT, EmitInt(n, rest)) <==> Found(CLAIM_TEXT, rest)
  {
    var digits := Digits(if n < 0 then -n else n);
    DigitsOf(if n < 0 then -n else n);
    SkipQuoteless(digits, rest);
    SkipQuoteless([45], digits + rest);
  }

  lemma ExponentFound(exponent: Text, rest: Text)
    requires Quoteless(exponent)
    ensures Found(CLAIM_TEXT, EmitExponent(exponent, rest)) <==> Found(CLAIM_TEXT, rest)
  {
    SkipQuoteless(exponent, rest);
    SkipQuoteless([101], exponent + rest);
  }

  lemma FractionFound(fraction: Text, rest: Text)
    requires Quoteless(fraction)
    ensures Found(CLAIM_TEXT, EmitFraction(fraction, rest)) <==> Found(CLAIM_TEXT, rest)
  {
    SkipQuoteless(fraction, rest);
    SkipQuoteless([46], fraction + rest);
  }

  lemma FloatFound(fl: Repr, f: FloatLit, rest: Text)
    requires IsRepr(fl, f)
    ensures Found(CLAIM_TEXT, EmitFloat(f, rest)) <==> Found(CLAIM_TEXT, rest)
  {
    if f.exponent != [] {
      assert forall i :: 1 <= i < |f.exponent| ==> f.exponent[i] == f.exponent[1..][i - 1];
    }
    ExponentFound(f.exponent, rest);
    var exponent := EmitExponent(f.exponent, rest);
    FractionFound(f.fraction, exponent);
    SkipQuoteless(f.whole, EmitFraction(f.fraction, exponent));
    SkipQuoteless([45], f.whole + EmitFraction(f.fraction, exponent));
  }

  // ---- Values ----

  /** Only `true` prints as text that begins like it. */
  lemma TrueShows(fl: Repr, v: Json, after: Text)
    requires Printable(fl, v) && Follows(after)
    ensures IS_TRUE <= [58] + Emit(v, after) <==> v == Bool(true)
  {
    assert IS_TRUE == [58] + [116, 114, 117, 101];
    SamePrefix(58, [116, 114, 117, 101], 58, Emit(v, after));
    match v
    case Int(n) => IntRoundTrip(fl, n, after);
    case Float(f) => FloatRoundTrip(fl, f, after);
    case Bool(true) => assert Emit(v, after) == [116, 114, 117, 101] + after;
    case _ => assert Emit(v, after)[0] != 116;
  }

  lemma {:induction false} ValueFound(fl: Repr, v: Json, rest: Text)
    requires Printable(fl, v) && Follows(rest)
    ensures Found(CLAIM_TEXT, Emit(v, rest)) <==> SaysTrue(v) || Found(CLAIM_TEXT, rest)
    decreases v, 0
  {
    match v
    case Str(s) => StringFound(s, rest);
    case Int(n) => IntFound(n, rest);
    case Float(f) => FloatFound(fl, f, rest);
    case Arr(es) =>
      SkipQuoteless([91], EmitElements(es, rest));
      ElementsFound(fl, es, rest);
    case Obj(ms) =>
      SkipQuoteless([123], EmitMembers(ms, rest));
      MembersFound(fl, ms, rest);
    case Null => SkipQuoteless([110, 117, 108, 108], rest);
    case Bool(b) => SkipQuoteless(if b then [116, 114, 117, 101] else [102, 97, 108, 115, 101], rest);
  }

  lemma {:induction false} ElementsFound(fl: Repr, es: Elements, rest: Text)
    requires PrintableElements(fl, es) && Follows(rest)
    ensures Found(CLAIM_TEXT, EmitElements(es, rest)) <==> ElementsSayTrue(es) || Found(CLAIM_TEXT, rest)
    decreases es, 1
  {
    SkipQuoteless([93], rest);
    if es.Element? {
      if es.tail.NoElements? {
        ValueFound(fl, es.head, [93] + rest);
      } else {
        ElementsFound(fl, es.tail, rest);
        SkipQuoteless([44], EmitElements(es.tail, rest));
        ValueFound(fl, es.head, [44] + EmitElements(es.tail, rest));
      }
    }
  }

  /** One member and what follows it. */
  lemma MemberFound(fl: Repr, key: Text, v: Json, after: Text)
    requires Unpaired(key) && Printable(fl, v) && Follows(after)
    ensures Found(CLAIM_TEXT, EmitString(key, [58] + Emit(v, after))) <==>
              (ClaimLike(key) && v == Bool(true)) || Found(CLAIM_TEXT, Emit(v, after))
  {
    StringFound(key, [58] + Emit(v, after));
    TrueShows(fl, v, after);
    SkipQuoteless([58], Emit(v, after));
  }

  lemma {:induction false} MembersFound(fl: Repr, ms: Members, rest: Text)
    requires PrintableMembers(fl, ms) && Follows(rest)
    ensures Found(CLAIM_TEXT, EmitMembers(ms, rest)) <==> MembersSayTrue(ms) || Found(CLAIM_TEXT, rest)
    decreases ms, 1
  {
    SkipQuoteless([125], rest);
    if ms.Member? {
      if ms.rest.NoMembers? {
        ValueFound(fl, ms.value, [125] + rest);
        MemberFound(fl, ms.key, ms.value, [125] + rest);
      } else {
        MembersFound(fl, ms.rest, rest);
        SkipQuoteless([44], EmitMembers(ms.rest, rest));
        ValueFound(fl, ms.value, [44] + EmitMembers(ms.rest, rest));
        MemberFound(fl, ms.key, ms.value, [44] + EmitMembers(ms.rest, rest));
      }
    }
  }

  // ---- Sorting the keys changes nothing ----

  lemma {:induction false} InsertSays(ms: Members, key: Text, v: Json)
    ensures MembersSayTrue(Insert(ms, key, v)) <==>
              (ClaimLike(key) && v == Bool(true)) || SaysTrue(v) || MembersSayTrue(ms)
  {
    if ms.Member? && !Less(key, ms.key) {
      InsertSays(ms.rest, key, v);
    }
  }

  lemma {:induction false} SortSays(ms: Members)
    ensures MembersSayTrue(Sort(ms)) <==> MembersSayTrue(ms)
  {
    if ms.Member? {
      SortSays(ms.rest);
      InsertSays(Sort(ms.rest), ms.key, ms.value);
    }
  }

  lemma {:induction false} FrozenSays(v: Json)
    ensures SaysTrue(Frozen(v)) <==> SaysTrue(v)
    decreases v, 0
  {
    match v
    case Arr(es) => FrozenElementsSay(es);
    case Obj(ms) =>
      FrozenMembersSay(ms);
      SortSays(FrozenMembers(ms));
    case _ =>
  }

  lemma {:induction false} FrozenElementsSay(es: Elements)
    ensures ElementsSayTrue(FrozenElements(es)) <==> ElementsSayTrue(es)
    decreases es, 1
  {
    if es.Element? {
      FrozenSays(es.head);
      FrozenElementsSay(es.tail);
    }
  }

  lemma {:induction false} FrozenMembersSay(ms: Members)
    ensures MembersSayTrue(FrozenMembers(ms)) <==> MembersSayTrue(ms)
    decreases ms, 1
  {
    if ms.Member? {
      FrozenSays(ms.value);
      FrozenMembersSay(ms.rest);
    }
  }

  // ---- The late test ----

  /** On admitted values the text test fires exactly when some member at some depth has the value true and
      a key that is the claim key or ends in a quote and the claim key. */
  lemma TextTestExactly(fl: Floats, v: Json)
    requires IsPython(fl, v) && Admitted(fl, v, 0)
    ensures Occurs(CLAIM_TEXT, Payload(v)) <==> SaysTrue(v)
  {
    FrozenPrintable(fl, v, 0);
    FrozenSays(v);
    ValueFound(fl.repr, Frozen(v), [10]);
    SkipQuoteless([10], []);
    assert [10] + [] == [10];
    ClaimBegins();
    FoundIsOccurs(CLAIM_TEXT, Payload(v));
  }

  /** Acceptance without mentioning the printed text. */
  lemma AcceptedExactly(fl: Floats, v: Json, byteLimit: nat)
    requires IsPython(fl, v)
    ensures Accepted(fl, v, byteLimit) <==>
              && Admitted(fl, v, 0) && Items(v) <= MAX_ITEMS && Numeric(v) <= MAX_NUMERIC_BYTES
              && Size(v) + 1 <= byteLimit && !Claims(Frozen(v)) && !SaysTrue(v)
  {
    if Admitted(fl, v, 0) {
      TextTestExactly(fl, v);
    }
  }

  lemma OneMemberFrozen(fl: Floats, key: Text)
    requires EncodableText(key)
    ensures var ms := Member(key, Bool(true), NoMembers);
            && Frozen(Obj(ms)) == Obj(ms) && AdmittedMembers(fl, ms, 1) && MembersArePython(fl, ms)
            && DistinctKeys(ms) && (MembersClaim(ms) <==> key == CLAIM_KEY)
  {
    var ms := Member(key, Bool(true), NoMembers);
    assert Frozen(Bool(true)) == Bool(true) && FrozenMembers(NoMembers) == NoMembers;
    assert FrozenMembers(ms) == ms;
    assert Sort(NoMembers) == NoMembers;
    assert Sort(ms) == Insert(NoMembers, key, Bool(true)) == ms;
    assert AdmittedMembers(fl, NoMembers, 1) && MembersArePython(fl, NoMembers) && !MembersClaim(NoMembers);
  }

  /** The text test refuses values that claim nothing: the escaped quote of a key completes the pattern. */
  lemma QuotedKeyIsRefused(fl: Floats) returns (v: Json)
    ensures IsPython(fl, v) && Admitted(fl, v, 0) && !Claims(Frozen(v)) && Occurs(CLAIM_TEXT, Payload(v))
  {
    ClaimBegins();
    assert QUOTED_CLAIM[0] == 34 && QUOTED_CLAIM != CLAIM_KEY && EncodableText(QUOTED_CLAIM);
    OneMemberFrozen(fl, QUOTED_CLAIM);
    v := Obj(Member(QUOTED_CLAIM, Bool(true), NoMembers));
    assert MembersSayTrue(v.members);
    TextTestExactly(fl, v);
  }
}

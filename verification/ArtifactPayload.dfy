/** `_artifact_payload_bytes`: which values become artifact bytes, and that only the frozen tree matters. */
module ArtifactPayload {
  import opened Common
  import opened Json
  import opened JsonRoundTrip
  import opened TextOrder
  import opened ArtifactJson
  import opened ArtifactBytes

  function Ascii(s: string): Text {
    seq(|s|, i requires 0 <= i < |s| => s[i] as int)
  }

  const CLAIM_KEY: Text := Ascii("competition_evidence")
  const CLAIM_TEXT: Text := Ascii("\"competition_evidence\":true")

  /** Some object claims competition evidence with anything but `false`. */
  predicate Claims(v: Json)
    decreases v
  {
    match v
    case Arr(es) => ElementsClaim(es)
    case Obj(ms) => MembersClaim(ms)
    case _ => false
  }

  predicate ElementsClaim(es: Elements)
    decreases es
  {
    es.Element? && (Claims(es.head) || ElementsClaim(es.tail))
  }

  predicate MembersClaim(ms: Members)
    decreases ms
  {
    ms.Member? && ((ms.key == CLAIM_KEY && ms.value != Bool(false)) || Claims(ms.value) || MembersClaim(ms.rest))
  }

  predicate OccursAt(pattern: Text, s: Text, i: int) {
    0 <= i <= |s| - |pattern| && s[i..i + |pattern|] == pattern
  }

  predicate Occurs(pattern: Text, s: Text) {
    exists i :: 0 <= i <= |s| && OccursAt(pattern, s, i)
  }

  function Payload(v: Json): Text {
    Emit(Frozen(v), [10])
  }

  predicate Accepted(fl: Floats, v: Json, byteLimit: nat) {
    && Admitted(fl, v, 0)
    && Items(v) <= MAX_ITEMS
    && Numeric(v) <= MAX_NUMERIC_BYTES
    && Size(v) + 1 <= byteLimit
    && !Claims(Frozen(v))
    && !Occurs(CLAIM_TEXT, Payload(v))
  }

  method PayloadBytes(fl: Floats, v: Json, byteLimit: nat) returns (r: Result<Text, Failure>)
    ensures r.Ok? <==> Accepted(fl, v, byteLimit)
    ensures r.Ok? ==> r.value == Payload(v) && |r.value| == Size(v) + 1
  {
    var bounds := new Bounds();
    var tree := Freeze(fl, v, 0, byteLimit, bounds);
    if tree.Err? {
      return Err(tree.error);
    }
    if Claims(tree.value) {
      return Err(ClaimForbidden);
    }
    FrozenSize(v);
    EmitSize(Frozen(v), [10]);
    var text := Emit(tree.value, [10]);
    if |text| > byteLimit {
      return Err(TooLarge);
    }
    if Occurs(CLAIM_TEXT, text) {
      return Err(ClaimForbidden);
    }
    return Ok(text);
  }

  /** Accepted payloads have equal bytes exactly when they are equal up to the order of object keys. */
  lemma SameBytesIffEquivalent(fl: Floats, a: Json, b: Json, m: nat, n: nat)
    requires IsPython(fl, a) && IsPython(fl, b) && Accepted(fl, a, m) && Accepted(fl, b, n)
    ensures Payload(a) == Payload(b) <==> Equivalent(a, b)
  {
    EquivalentFreezeAlike(fl, a, b);
    if Payload(a) == Payload(b) {
      FrozenPrintable(fl, a, 0);
      FrozenPrintable(fl, b, 0);
      ValueRoundTrip(fl.repr, Frozen(a), [10]);
      ValueRoundTrip(fl.repr, Frozen(b), [10]);
      AlikeAreEquivalent(fl, a, b);
    }
  }

  // ---- Freezing again changes nothing ----

  lemma {:induction false} InsertFrozen(ms: Members, key: Text, value: Json)
    ensures FrozenMembers(Insert(ms, key, value)) == Insert(FrozenMembers(ms), key, Frozen(value))
  {
    if ms.Member? && !Less(key, ms.key) {
      InsertFrozen(ms.rest, key, value);
    }
  }

  lemma {:induction false} SortFrozen(ms: Members)
    ensures FrozenMembers(Sort(ms)) == Sort(FrozenMembers(ms))
  {
    if ms.Member? {
      SortFrozen(ms.rest);
      InsertFrozen(Sort(ms.rest), ms.key, ms.value);
    }
  }

  /** Sorting an ascending object leaves it alone. */
  lemma {:induction false} SortOfAscending(ms: Members)
    requires Ascending(ms)
    ensures Sort(ms) == ms
  {
    if ms.Member? {
      SortOfAscending(ms.rest);
    }
  }

  lemma {:induction false} FrozenTwice(fl: Floats, v: Json)
    requires IsPython(fl, v)
    ensures Frozen(Frozen(v)) == Frozen(v) && IsPython(fl, Frozen(v))
    decreases v, 0
  {
    match v
    case Arr(es) => FrozenElementsTwice(fl, es);
    case Obj(ms) =>
      FrozenMembersTwice(fl, ms);
      FrozenMembersHas(ms, []);
      var fm := FrozenMembers(ms);
      SortFrozen(fm);
      SortAscends(fm);
      AscendingIsDistinct(Sort(fm));
      SortOfAscending(Sort(fm));
      SortPython(fl, fm);
    case _ =>
  }

  lemma {:induction false} FrozenElementsTwice(fl: Floats, es: Elements)
    requires ArePython(fl, es)
    ensures FrozenElements(FrozenElements(es)) == FrozenElements(es) && ArePython(fl, FrozenElements(es))
    decreases es, 1
  {
    if es.Element? {
      FrozenTwice(fl, es.head);
      FrozenElementsTwice(fl, es.tail);
    }
  }

  lemma {:induction false} FrozenMembersTwice(fl: Floats, ms: Members)
    requires MembersArePython(fl, ms)
    ensures FrozenMembers(FrozenMembers(ms)) == FrozenMembers(ms) && MembersArePython(fl, FrozenMembers(ms))
    decreases ms, 1
  {
    if ms.Member? {
      FrozenTwice(fl, ms.value);
      FrozenMembersTwice(fl, ms.rest);
    }
  }

  lemma {:induction false} InsertPython(fl: Floats, ms: Members, key: Text, value: Json)
    ensures MembersArePython(fl, Insert(ms, key, value)) <==> MembersArePython(fl, ms) && IsPython(fl, value)
  {
    if ms.Member? && !Less(key, ms.key) {
      InsertPython(fl, ms.rest, key, value);
    }
  }

  lemma {:induction false} SortPython(fl: Floats, ms: Members)
    ensures MembersArePython(fl, Sort(ms)) <==> MembersArePython(fl, ms)
  {
    if ms.Member? {
      SortPython(fl, ms.rest);
      InsertPython(fl, Sort(ms.rest), ms.key, ms.value);
    }
  }

  // ---- Acceptance depends on the frozen tree alone ----

  lemma {:induction false} InsertCounts(fl: Floats, ms: Members, key: Text, value: Json, depth: nat)
    ensures AdmittedMembers(fl, Insert(ms, key, value), depth) <==>
              AdmittedMembers(fl, ms, depth) && EncodableText(key) && Admitted(fl, value, depth)
    ensures ItemsMembers(Insert(ms, key, value)) == ItemsMembers(ms) + Items(value)
    ensures NumericMembers(Insert(ms, key, value)) == NumericMembers(ms) + Numeric(value)
  {
    if ms.Member? && !Less(key, ms.key) {
      InsertCounts(fl, ms.rest, key, value, depth);
    }
  }

  lemma {:induction false} SortCounts(fl: Floats, ms: Members, depth: nat)
    ensures AdmittedMembers(fl, Sort(ms), depth) <==> AdmittedMembers(fl, ms, depth)
    ensures ItemsMembers(Sort(ms)) == ItemsMembers(ms)
    ensures NumericMembers(Sort(ms)) == NumericMembers(ms)
  {
    if ms.Member? {
      SortCounts(fl, ms.rest, depth);
      InsertCounts(fl, Sort(ms.rest), ms.key, ms.value, depth);
    }
  }

  lemma {:induction false} FrozenCounts(fl: Floats, v: Json, depth: nat)
    ensures Admitted(fl, Frozen(v), depth) <==> Admitted(fl, v, depth)
    ensures Items(Frozen(v)) == Items(v) && Numeric(Frozen(v)) == Numeric(v)
    decreases v, 0
  {
    match v
    case Arr(es) => FrozenElementsCounts(fl, es, depth + 1);
    case Obj(ms) =>
      FrozenMembersCounts(fl, ms, depth + 1);
      SortCounts(fl, FrozenMembers(ms), depth + 1);
    case _ =>
  }

  lemma {:induction false} FrozenElementsCounts(fl: Floats, es: Elements, depth: nat)
    ensures AdmittedElements(fl, FrozenElements(es), depth) <==> AdmittedElements(fl, es, depth)
    ensures ItemsElements(FrozenElements(es)) == ItemsElements(es)
    ensures NumericElements(FrozenElements(es)) == NumericElements(es)
    decreases es, 1
  {
    if es.Element? {
      FrozenCounts(fl, es.head, depth);
      FrozenElementsCounts(fl, es.tail, depth);
    }
  }

  lemma {:induction false} FrozenMembersCounts(fl: Floats, ms: Members, depth: nat)
    ensures AdmittedMembers(fl, FrozenMembers(ms), depth) <==> AdmittedMembers(fl, ms, depth)
    ensures ItemsMembers(FrozenMembers(ms)) == ItemsMembers(ms)
    ensures NumericMembers(FrozenMembers(ms)) == NumericMembers(ms)
    decreases ms, 1
  {
    if ms.Member? {
      FrozenCounts(fl, ms.value, depth);
      FrozenMembersCounts(fl, ms.rest, depth);
    }
  }

  /** Two values that freeze alike are both accepted or both refused, with the same bytes. */
  lemma AcceptedAlike(fl: Floats, a: Json, b: Json, byteLimit: nat)
    requires Frozen(a) == Frozen(b)
    ensures Accepted(fl, a, byteLimit) <==> Accepted(fl, b, byteLimit)
    ensures Payload(a) == Payload(b)
  {
    FrozenCounts(fl, a, 0);
    FrozenCounts(fl, b, 0);
    FrozenSize(a);
    FrozenSize(b);
  }
}

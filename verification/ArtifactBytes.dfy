/** What canonical artifact bytes mean: their length, the tree they parse back to, and when two
    payloads have the same bytes. */
module ArtifactBytes {
  import opened Json
  import opened JsonRoundTrip
  import opened TextOrder
  import opened ArtifactJson

  // ---- The account is exact ----

  lemma {:induction false} EmitBodySize(s: Text, rest: Text)
    ensures |EmitBody(s, rest)| == BodySize(s) + 1 + |rest|
  {
    if s != [] {
      EmitBodySize(s[1..], rest);
    }
  }

  lemma EmitFloatSize(f: FloatLit, rest: Text)
    ensures |EmitFloat(f, rest)| == FloatSize(f) + |rest|
  {
  }

  /** The printed text is exactly as long as the freezer's account says, for any nesting. */
  lemma {:induction false} EmitSize(v: Json, rest: Text)
    ensures |Emit(v, rest)| == Size(v) + |rest|
    decreases v, 0
  {
    match v
    case Str(s) => EmitBodySize(s, rest);
    case Float(f) => EmitFloatSize(f, rest);
    case Arr(es) => EmitElementsSize(es, rest);
    case Obj(ms) => EmitMembersSize(ms, rest);
    case _ =>
  }

  lemma {:induction false} EmitElementsSize(es: Elements, rest: Text)
    ensures |EmitElements(es, rest)| == Frame(Count(es)) - 1 + SizeElements(es) + |rest|
    decreases es, 1
  {
    if es.Element? {
      EmitSize(es.head, if es.tail.NoElements? then [93] + rest else [44] + EmitElements(es.tail, rest));
      EmitElementsSize(es.tail, rest);
    }
  }

  lemma {:induction false} EmitMembersSize(ms: Members, rest: Text)
    ensures |EmitMembers(ms, rest)| == Frame(CountMembers(ms)) - 1 + SizeMembers(ms) + |rest|
    decreases ms, 1
  {
    if ms.Member? {
      var more := if ms.rest.NoMembers? then [125] + rest else [44] + EmitMembers(ms.rest, rest);
      EmitSize(ms.value, more);
      EmitBodySize(ms.key, [58] + Emit(ms.value, more));
      EmitMembersSize(ms.rest, rest);
    }
  }

  lemma {:induction false} InsertSize(ms: Members, key: Text, value: Json)
    ensures SizeMembers(Insert(ms, key, value)) == 1 + QuotedSize(key) + Size(value) + SizeMembers(ms)
    ensures CountMembers(Insert(ms, key, value)) == 1 + CountMembers(ms)
  {
    if ms.Member? && !Less(key, ms.key) {
      InsertSize(ms.rest, key, value);
    }
  }

  lemma {:induction false} SortSize(ms: Members)
    ensures SizeMembers(Sort(ms)) == SizeMembers(ms) && CountMembers(Sort(ms)) == CountMembers(ms)
  {
    if ms.Member? {
      SortSize(ms.rest);
      InsertSize(Sort(ms.rest), ms.key, ms.value);
    }
  }

  lemma {:induction false} FrozenSize(v: Json)
    ensures Size(Frozen(v)) == Size(v)
    decreases v, 0
  {
    match v
    case Arr(es) => FrozenElementsSize(es);
    case Obj(ms) => FrozenMembersSize(ms); SortSize(FrozenMembers(ms));
    case _ =>
  }

  lemma {:induction false} FrozenElementsSize(es: Elements)
    ensures SizeElements(FrozenElements(es)) == SizeElements(es) && Count(FrozenElements(es)) == Count(es)
    decreases es, 1
  {
    if es.Element? {
      FrozenSize(es.head);
      FrozenElementsSize(es.tail);
    }
  }

  lemma {:induction false} FrozenMembersSize(ms: Members)
    ensures SizeMembers(FrozenMembers(ms)) == SizeMembers(ms) && CountMembers(FrozenMembers(ms)) == CountMembers(ms)
    decreases ms, 1
  {
    if ms.Member? {
      FrozenSize(ms.value);
      FrozenMembersSize(ms.rest);
    }
  }

  // ---- Python values ----

  /** Mappings have distinct keys, and floats are written as `repr` writes them. */
  predicate IsPython(fl: Floats, v: Json)
    decreases v
  {
    match v
    case Float(f) => IsRepr(fl.repr, f)
    case Arr(es) => ArePython(fl, es)
    case Obj(ms) => DistinctKeys(ms) && MembersArePython(fl, ms)
    case _ => true
  }

  predicate ArePython(fl: Floats, es: Elements)
    decreases es
  {
    es.Element? ==> IsPython(fl, es.head) && ArePython(fl, es.tail)
  }

  predicate MembersArePython(fl: Floats, ms: Members)
    decreases ms
  {
    ms.Member? ==> IsPython(fl, ms.value) && MembersArePython(fl, ms.rest)
  }

  lemma {:induction false} FrozenMembersHas(ms: Members, q: Text)
    ensures Has(FrozenMembers(ms), q) <==> Has(ms, q)
    ensures Has(ms, q) ==> Get(FrozenMembers(ms), q) == Frozen(Get(ms, q))
    ensures DistinctKeys(ms) ==> DistinctKeys(FrozenMembers(ms))
  {
    if ms.Member? {
      FrozenMembersHas(ms.rest, q);
      FrozenMembersHas(ms.rest, ms.key);
    }
  }

  lemma {:induction false} InsertPrintable(fl: Repr, ms: Members, key: Text, value: Json)
    requires PrintableMembers(fl, ms) && Unpaired(key) && Printable(fl, value)
    ensures PrintableMembers(fl, Insert(ms, key, value))
  {
    if ms.Member? && !Less(key, ms.key) {
      InsertPrintable(fl, ms.rest, key, value);
    }
  }

  lemma {:induction false} SortPrintable(fl: Repr, ms: Members)
    requires PrintableMembers(fl, ms)
    ensures PrintableMembers(fl, Sort(ms))
  {
    if ms.Member? {
      SortPrintable(fl, ms.rest);
      InsertPrintable(fl, Sort(ms.rest), ms.key, ms.value);
    }
  }

  lemma {:induction false} AdmittedPrintable(fl: Floats, v: Json, depth: nat)
    requires IsPython(fl, v) && Admitted(fl, v, depth)
    ensures Printable(fl.repr, v)
    decreases v, 0
  {
    match v
    case Arr(es) => AdmittedElementsPrintable(fl, es, depth + 1);
    case Obj(ms) => AdmittedMembersPrintable(fl, ms, depth + 1);
    case _ =>
  }

  lemma {:induction false} AdmittedElementsPrintable(fl: Floats, es: Elements, depth: nat)
    requires ArePython(fl, es) && AdmittedElements(fl, es, depth)
    ensures PrintableElements(fl.repr, es)
    decreases es, 1
  {
    if es.Element? {
      AdmittedPrintable(fl, es.head, depth);
      AdmittedElementsPrintable(fl, es.tail, depth);
    }
  }

  lemma {:induction false} AdmittedMembersPrintable(fl: Floats, ms: Members, depth: nat)
    requires MembersArePython(fl, ms) && AdmittedMembers(fl, ms, depth)
    ensures PrintableMembers(fl.repr, ms)
    decreases ms, 1
  {
    if ms.Member? {
      AdmittedPrintable(fl, ms.value, depth);
      AdmittedMembersPrintable(fl, ms.rest, depth);
    }
  }

  /** Sorting the keys at every level keeps a value printable. */
  lemma {:induction false} PrintableFreezes(fl: Repr, v: Json)
    requires Printable(fl, v)
    ensures Printable(fl, Frozen(v))
    decreases v, 0
  {
    match v
    case Arr(es) => PrintableElementsFreeze(fl, es);
    case Obj(ms) =>
      PrintableMembersFreeze(fl, ms);
      FrozenMembersHas(ms, []);
      SortPrintable(fl, FrozenMembers(ms));
      SortAscends(FrozenMembers(ms));
      AscendingIsDistinct(Sort(FrozenMembers(ms)));
    case _ =>
  }

  lemma {:induction false} PrintableElementsFreeze(fl: Repr, es: Elements)
    requires PrintableElements(fl, es)
    ensures PrintableElements(fl, FrozenElements(es))
    decreases es, 1
  {
    if es.Element? {
      PrintableFreezes(fl, es.head);
      PrintableElementsFreeze(fl, es.tail);
    }
  }

  lemma {:induction false} PrintableMembersFreeze(fl: Repr, ms: Members)
    requires PrintableMembers(fl, ms)
    ensures PrintableMembers(fl, FrozenMembers(ms))
    decreases ms, 1
  {
    if ms.Member? {
      PrintableFreezes(fl, ms.value);
      PrintableMembersFreeze(fl, ms.rest);
    }
  }

  /** What the freezer returns can be printed and parsed. */
  lemma FrozenPrintable(fl: Floats, v: Json, depth: nat)
    requires IsPython(fl, v) && Admitted(fl, v, depth)
    ensures Printable(fl.repr, Frozen(v))
  {
    AdmittedPrintable(fl, v, depth);
    PrintableFreezes(fl.repr, v);
  }

  // ---- Equality up to the order of object keys ----

  predicate Equivalent(a: Json, b: Json)
    decreases a
  {
    match a
    case Arr(es) => b.Arr? && EquivalentElements(es, b.elements)
    case Obj(ms) => b.Obj? && Covers(ms, b.members) && KeysWithin(b.members, ms)
    case _ => a == b
  }

  predicate EquivalentElements(a: Elements, b: Elements)
    decreases a
  {
    if a.NoElements? then b.NoElements?
    else b.Element? && Equivalent(a.head, b.head) && EquivalentElements(a.tail, b.tail)
  }

  /** Every member of `a` is in `b` with an equivalent value. */
  predicate Covers(a: Members, b: Members)
    decreases a
  {
    a.Member? ==> Has(b, a.key) && Equivalent(a.value, Get(b, a.key)) && Covers(a.rest, b)
  }

  predicate KeysWithin(a: Members, b: Members) {
    a.Member? ==> Has(b, a.key) && KeysWithin(a.rest, b)
  }

  lemma {:induction false} KeysWithinHas(a: Members, b: Members, q: Text)
    requires KeysWithin(a, b) && Has(a, q)
    ensures Has(b, q)
  {
    if q != a.key {
      KeysWithinHas(a.rest, b, q);
    }
  }

  lemma {:induction false} HasKeysWithin(a: Members, b: Members)
    requires forall q :: Has(a, q) ==> Has(b, q)
    ensures KeysWithin(a, b)
  {
    if a.Member? {
      assert Has(a, a.key);
      assert forall q :: Has(a.rest, q) ==> Has(a, q);
      HasKeysWithin(a.rest, b);
    }
  }

  lemma {:induction false} CoversGet(a: Members, b: Members, q: Text)
    requires Covers(a, b) && DistinctKeys(a) && Has(a, q)
    ensures Has(b, q) && Equivalent(Get(a, q), Get(b, q))
  {
    if q != a.key {
      CoversGet(a.rest, b, q);
    }
  }

  lemma {:induction false} PythonGet(fl: Floats, ms: Members, q: Text)
    requires MembersArePython(fl, ms) && Has(ms, q)
    ensures IsPython(fl, Get(ms, q))
  {
    if q != ms.key {
      PythonGet(fl, ms.rest, q);
    }
  }

  /** Freezing identifies exactly the values that are equal up to the order of object keys. */
  lemma {:induction false} EquivalentFreezeAlike(fl: Floats, a: Json, b: Json)
    requires IsPython(fl, a) && IsPython(fl, b)
    ensures Equivalent(a, b) ==> Frozen(a) == Frozen(b)
    decreases a, 0
  {
    if Equivalent(a, b) {
      match a
      case Arr(es) => ElementsFreezeAlike(fl, es, b.elements);
      case Obj(ms) =>
        var fa, fb := FrozenMembers(ms), FrozenMembers(b.members);
        FrozenMembersHas(ms, []);
        FrozenMembersHas(b.members, []);
        forall q
          ensures Has(Sort(fa), q) <==> Has(Sort(fb), q)
          ensures Has(Sort(fa), q) && Has(Sort(fb), q) ==> Get(Sort(fa), q) == Get(Sort(fb), q)
        {
          SortKeepsLookup(fa, q);
          SortKeepsLookup(fb, q);
          FrozenMembersHas(ms, q);
          FrozenMembersHas(b.members, q);
          if Has(b.members, q) {
            KeysWithinHas(b.members, ms, q);
          }
          if Has(ms, q) {
            CoversGet(ms, b.members, q);
            PythonGet(fl, ms, q);
            PythonGet(fl, b.members, q);
            EquivalentFreezeAlike(fl, Get(ms, q), Get(b.members, q));
          }
        }
        SortAscends(fa);
        SortAscends(fb);
        AscendingUnique(Sort(fa), Sort(fb));
      case _ =>
    }
  }

  lemma {:induction false} ElementsFreezeAlike(fl: Floats, a: Elements, b: Elements)
    requires ArePython(fl, a) && ArePython(fl, b) && EquivalentElements(a, b)
    ensures FrozenElements(a) == FrozenElements(b)
    decreases a, 1
  {
    if a.Element? {
      EquivalentFreezeAlike(fl, a.head, b.head);
      ElementsFreezeAlike(fl, a.tail, b.tail);
    }
  }

  lemma {:induction false} AlikeAreEquivalent(fl: Floats, a: Json, b: Json)
    requires IsPython(fl, a) && IsPython(fl, b) && Frozen(a) == Frozen(b)
    ensures Equivalent(a, b)
    decreases a, 0
  {
    match a
    case Arr(es) => AlikeElements(fl, es, b.elements);
    case Obj(ms) =>
      forall q
        ensures Has(ms, q) <==> Has(b.members, q)
        ensures Has(ms, q) && Has(b.members, q) ==> Frozen(Get(ms, q)) == Frozen(Get(b.members, q))
      {
        FrozenMembersHas(ms, q);
        FrozenMembersHas(b.members, q);
        SortKeepsLookup(FrozenMembers(ms), q);
        SortKeepsLookup(FrozenMembers(b.members), q);
      }
      HasKeysWithin(b.members, ms);
      AlikeMembers(fl, ms, b.members);
    case _ =>
  }

  lemma {:induction false} AlikeElements(fl: Floats, a: Elements, b: Elements)
    requires ArePython(fl, a) && ArePython(fl, b) && FrozenElements(a) == FrozenElements(b)
    ensures EquivalentElements(a, b)
    decreases a, 1
  {
    if a.Element? {
      AlikeAreEquivalent(fl, a.head, b.head);
      AlikeElements(fl, a.tail, b.tail);
    }
  }

  lemma {:induction false} AlikeMembers(fl: Floats, a: Members, b: Members)
    requires MembersArePython(fl, a) && MembersArePython(fl, b) && DistinctKeys(a)
    requires forall q :: Has(a, q) ==> Has(b, q) && Frozen(Get(a, q)) == Frozen(Get(b, q))
    ensures Covers(a, b)
    decreases a, 1
  {
    if a.Member? {
      assert Has(a, a.key) && Get(a, a.key) == a.value;
      PythonGet(fl, b, a.key);
      AlikeAreEquivalent(fl, a.value, Get(b, a.key));
      forall q | Has(a.rest, q) ensures Has(b, q) && Frozen(Get(a.rest, q)) == Frozen(Get(b, q)) {
        assert Has(a, q) && q != a.key;
      }
      AlikeMembers(fl, a.rest, b);
    }
  }
}

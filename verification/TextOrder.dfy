/** Python's order on strings, and objects sorted by key. */
module TextOrder {
  import opened Json

  predicate Less(a: Text, b: Text) {
    b != [] && (a == [] || a[0] < b[0] || (a[0] == b[0] && Less(a[1..], b[1..])))
  }

  lemma {:induction false} LessIsTotal(a: Text, b: Text)
    ensures a == b || Less(a, b) || Less(b, a)
  {
    if a != [] && b != [] && a[0] == b[0] {
      LessIsTotal(a[1..], b[1..]);
      assert a == [a[0]] + a[1..] && b == [b[0]] + b[1..];
    }
  }

  lemma {:induction false} LessIsStrict(a: Text, b: Text)
    requires Less(a, b)
    ensures a != b && !Less(b, a)
  {
    if a != [] && a[0] == b[0] {
      LessIsStrict(a[1..], b[1..]);
    }
  }

  lemma {:induction false} LessIsTransitive(a: Text, b: Text, c: Text)
    requires Less(a, b) && Less(b, c)
    ensures Less(a, c)
  {
    if a != [] && a[0] == b[0] && b[0] == c[0] {
      LessIsTransitive(a[1..], b[1..], c[1..]);
    }
  }

  // ---- Sorting members ----

  function Insert(ms: Members, key: Text, value: Json): Members {
    match ms
    case NoMembers => Member(key, value, NoMembers)
    case Member(k, v, rest) =>
      if Less(key, k) then Member(key, value, ms) else Member(k, v, Insert(rest, key, value))
  }

  /** `sorted(items, key=lambda pair: pair[0])` for distinct keys. */
  function Sort(ms: Members): Members {
    match ms
    case NoMembers => NoMembers
    case Member(k, v, rest) => Insert(Sort(rest), k, v)
  }

  predicate Ascending(ms: Members) {
    ms.Member? && ms.rest.Member? ==> Less(ms.key, ms.rest.key) && Ascending(ms.rest)
  }

  lemma {:induction false} InsertHas(ms: Members, key: Text, value: Json, q: Text)
    ensures Has(Insert(ms, key, value), q) <==> q == key || Has(ms, q)
  {
    if ms.Member? && !Less(key, ms.key) {
      InsertHas(ms.rest, key, value, q);
    }
  }

  lemma {:induction false} InsertGet(ms: Members, key: Text, value: Json, q: Text)
    requires !Has(ms, key) && (q == key || Has(ms, q))
    ensures Has(Insert(ms, key, value), q)
    ensures Get(Insert(ms, key, value), q) == if q == key then value else Get(ms, q)
  {
    InsertHas(ms, key, value, q);
    if ms.Member? && !Less(key, ms.key) && q != ms.key {
      InsertGet(ms.rest, key, value, q);
    }
  }

  lemma {:induction false} InsertAscending(ms: Members, key: Text, value: Json)
    requires Ascending(ms) && !Has(ms, key)
    ensures Ascending(Insert(ms, key, value))
  {
    if ms.Member? && !Less(key, ms.key) {
      LessIsTotal(key, ms.key);
      InsertAscending(ms.rest, key, value);
    }
  }

  lemma {:induction false} SortKeepsLookup(ms: Members, q: Text)
    requires DistinctKeys(ms)
    ensures Has(Sort(ms), q) <==> Has(ms, q)
    ensures Has(ms, q) ==> Get(Sort(ms), q) == Get(ms, q)
  {
    if ms.Member? {
      SortKeepsLookup(ms.rest, q);
      SortKeepsLookup(ms.rest, ms.key);
      InsertHas(Sort(ms.rest), ms.key, ms.value, q);
      if Has(ms, q) {
        InsertGet(Sort(ms.rest), ms.key, ms.value, q);
      }
    }
  }

  lemma {:induction false} SortAscends(ms: Members)
    requires DistinctKeys(ms)
    ensures Ascending(Sort(ms))
  {
    if ms.Member? {
      SortAscends(ms.rest);
      SortKeepsLookup(ms.rest, ms.key);
      InsertAscending(Sort(ms.rest), ms.key, ms.value);
    }
  }

  lemma {:induction false} FirstIsLeast(ms: Members, q: Text)
    requires Ascending(ms) && ms.Member? && Has(ms.rest, q)
    ensures Less(ms.key, q)
  {
    if q != ms.rest.key {
      FirstIsLeast(ms.rest, q);
      LessIsTransitive(ms.key, ms.rest.key, q);
    }
  }

  lemma {:induction false} AscendingIsDistinct(ms: Members)
    requires Ascending(ms)
    ensures DistinctKeys(ms)
  {
    if ms.Member? {
      AscendingIsDistinct(ms.rest);
      if Has(ms.rest, ms.key) {
        FirstIsLeast(ms, ms.key);
        LessIsStrict(ms.key, ms.key);
      }
    }
  }

  /** The same mapping. */
  ghost predicate SameLookup(a: Members, b: Members) {
    forall q :: (Has(a, q) <==> Has(b, q)) && (Has(a, q) && Has(b, q) ==> Get(a, q) == Get(b, q))
  }

  /** An ascending object is determined by its mapping. */
  lemma {:induction false} AscendingUnique(a: Members, b: Members)
    requires Ascending(a) && Ascending(b) && SameLookup(a, b)
    ensures a == b
  {
    if a.NoMembers? {
      assert b.Member? ==> Has(a, b.key);
    } else {
      assert Has(a, a.key) && Has(b, a.key);
      assert Has(b, b.key) && Has(a, b.key);
      if a.key != b.key {
        FirstIsLeast(a, b.key);
        FirstIsLeast(b, a.key);
        LessIsStrict(a.key, b.key);
      }
      AscendingIsDistinct(a);
      AscendingIsDistinct(b);
      forall q
        ensures Has(a.rest, q) <==> Has(b.rest, q)
        ensures Has(a.rest, q) && Has(b.rest, q) ==> Get(a.rest, q) == Get(b.rest, q)
      {
        assert Has(a, q) <==> Has(b, q);
        assert Has(a, q) && Has(b, q) ==> Get(a, q) == Get(b, q);
      }
      AscendingUnique(a.rest, b.rest);
    }
  }
}

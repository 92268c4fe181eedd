/** Python dictionaries with text keys, in insertion order. */
module Dictionaries {
  import opened Common
  import opened Json

  /** `ms.get(key)`: an absent key reads as null. */
  function Field(ms: Members, key: Text): Json {
    if Has(ms, key) then Get(ms, key) else Null
  }

  /** `ms | {key: value}`. */
  function Put(ms: Members, key: Text, value: Json): Members {
    match ms
    case NoMembers => Member(key, value, NoMembers)
    case Member(k, v, rest) => if k == key then Member(k, value, rest) else Member(k, v, Put(rest, key, value))
  }

  function Remove(ms: Members, key: Text): Members {
    match ms
    case NoMembers => NoMembers
    case Member(k, v, rest) => if k == key then rest else Member(k, v, Remove(rest, key))
  }

  function Lookup(ms: Members, key: Text): Option<Json> {
    if Has(ms, key) then Some(Get(ms, key)) else None
  }

  lemma {:induction false} PutLookup(ms: Members, key: Text, value: Json, q: Text)
    ensures Lookup(Put(ms, key, value), q) == if q == key then Some(value) else Lookup(ms, q)
    ensures DistinctKeys(ms) ==> DistinctKeys(Put(ms, key, value))
  {
    if ms.Member? && ms.key != key {
      PutLookup(ms.rest, key, value, q);
      PutLookup(ms.rest, key, value, ms.key);
    }
  }

  lemma {:induction false} RemoveLookup(ms: Members, key: Text, q: Text)
    requires DistinctKeys(ms)
    ensures Lookup(Remove(ms, key), q) == if q == key then None else Lookup(ms, q)
    ensures DistinctKeys(Remove(ms, key))
  {
    if ms.Member? && ms.key != key {
      RemoveLookup(ms.rest, key, q);
      RemoveLookup(ms.rest, key, ms.key);
    }
  }

  /** `a | b`: where both have a key, `b` decides. */
  function Union(a: Members, b: Members): Members
    decreases b
  {
    match b
    case NoMembers => a
    case Member(k, v, rest) => Union(Put(a, k, v), rest)
  }

  lemma {:induction false} UnionLookup(a: Members, b: Members, q: Text)
    requires DistinctKeys(b)
    ensures Lookup(Union(a, b), q) == if Has(b, q) then Lookup(b, q) else Lookup(a, q)
    ensures DistinctKeys(a) ==> DistinctKeys(Union(a, b))
    decreases b
  {
    if b.Member? {
      PutLookup(a, b.key, b.value, q);
      UnionLookup(Put(a, b.key, b.value), b.rest, q);
    }
  }

  ghost predicate SameDictionary(a: Members, b: Members) {
    forall q :: Lookup(a, q) == Lookup(b, q)
  }
}

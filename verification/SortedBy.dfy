/** `sorted(items, key=...)` for text keys that are all different: the result depends on the items alone. */
module SortedBy {
  import opened Json
  import opened Sorting
  import TextOrder

  function ByKey<T>(key: T -> Text): Order<T> {
    (x: T, y: T) => TextOrder.Less(key(x), key(y))
  }

  predicate DistinctBy<T>(key: T -> Text, s: seq<T>) {
    forall i, j :: 0 <= i < j < |s| ==> key(s[i]) != key(s[j])
  }

  predicate AscendingBy<T>(key: T -> Text, s: seq<T>) {
    Ascends(ByKey(key), s)
  }

  function SortBy<T>(key: T -> Text, s: seq<T>): seq<T> {
    Sort(ByKey(key), s)
  }

  lemma KeysAreStrict<T(!new)>(key: T -> Text)
    ensures Strict(ByKey(key))
  {
    var before := ByKey(key);
    forall x, y | before(x, y) ensures !before(y, x) {
      TextOrder.LessIsStrict(key(x), key(y));
    }
    forall x, y, z | before(x, y) && before(y, z) ensures before(x, z) {
      TextOrder.LessIsTransitive(key(x), key(y), key(z));
    }
  }

  lemma DistinctCompare<T>(key: T -> Text, s: seq<T>)
    requires DistinctBy(key, s)
    ensures Comparable(ByKey(key), s)
  {
    var before := ByKey(key);
    forall i, j | 0 <= i < j < |s| ensures before(s[i], s[j]) || before(s[j], s[i]) {
      TextOrder.LessIsTotal(key(s[i]), key(s[j]));
    }
  }

  lemma SortIsSorted<T(!new)>(key: T -> Text, s: seq<T>)
    requires DistinctBy(key, s)
    ensures AscendingBy(key, SortBy(key, s)) && SameElements(SortBy(key, s), s)
  {
    KeysAreStrict(key);
    DistinctCompare(key, s);
    SortAscends(ByKey(key), s);
    SortElements(ByKey(key), s);
  }

  /** An ascending list is determined by its elements. */
  lemma AscendingByDetermined<T(!new)>(key: T -> Text, a: seq<T>, b: seq<T>)
    requires AscendingBy(key, a) && AscendingBy(key, b) && SameElements(a, b)
    ensures a == b
  {
    KeysAreStrict(key);
    AscendingDetermined(ByKey(key), a, b);
  }

  /** Sorting by distinct keys forgets the order of the input. */
  lemma SortByForgetsOrder<T(!new)>(key: T -> Text, a: seq<T>, b: seq<T>)
    requires DistinctBy(key, a) && DistinctBy(key, b) && SameElements(a, b)
    ensures SortBy(key, a) == SortBy(key, b)
  {
    KeysAreStrict(key);
    DistinctCompare(key, a);
    DistinctCompare(key, b);
    SortForgetsOrder(ByKey(key), a, b);
  }
}

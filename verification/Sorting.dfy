/** Lists sorted by a strict order, as Python's `sorted` leaves them when no two items compare equal. */
module Sorting {
  type Order<!T> = (T, T) -> bool

  ghost predicate Strict<T(!new)>(before: Order<T>) {
    && (forall x, y :: before(x, y) ==> !before(y, x))
    && (forall x, y, z :: before(x, y) && before(y, z) ==> before(x, z))
  }

  predicate Ascends<T>(before: Order<T>, s: seq<T>) {
    forall i, j :: 0 <= i < j < |s| ==> before(s[i], s[j])
  }

  /** Any two of the items compare one way or the other. */
  predicate Comparable<T>(before: Order<T>, s: seq<T>) {
    forall i, j :: 0 <= i < j < |s| ==> before(s[i], s[j]) || before(s[j], s[i])
  }

  function Insert<T>(before: Order<T>, s: seq<T>, x: T): seq<T> {
    if s == [] || before(x, s[0]) then [x] + s else [s[0]] + Insert(before, s[1..], x)
  }

  function Sort<T>(before: Order<T>, s: seq<T>): seq<T> {
    if s == [] then [] else Insert(before, Sort(before, s[1..]), s[0])
  }

  ghost predicate SameElements<T(!new)>(a: seq<T>, b: seq<T>) {
    forall x :: x in a <==> x in b
  }

  lemma {:induction false} InsertElements<T(!new)>(before: Order<T>, s: seq<T>, x: T)
    ensures forall y :: y in Insert(before, s, x) <==> y == x || y in s
    ensures |Insert(before, s, x)| == |s| + 1
  {
    if s != [] && !before(x, s[0]) {
      InsertElements(before, s[1..], x);
      assert s == [s[0]] + s[1..];
    }
  }

  lemma {:induction false} SortElements<T(!new)>(before: Order<T>, s: seq<T>)
    ensures SameElements(Sort(before, s), s) && |Sort(before, s)| == |s|
  {
    if s != [] {
      SortElements(before, s[1..]);
      InsertElements(before, Sort(before, s[1..]), s[0]);
      assert s == [s[0]] + s[1..];
    }
  }

  lemma AscendsFrom<T>(before: Order<T>, first: T, rest: seq<T>)
    requires Ascends(before, rest) && forall y :: y in rest ==> before(first, y)
    ensures Ascends(before, [first] + rest)
  {
    var s := [first] + rest;
    forall i, j | 0 <= i < j < |s| ensures before(s[i], s[j]) {
      assert s[j] == rest[j - 1];
      assert i > 0 ==> s[i] == rest[i - 1];
    }
  }

  lemma HeadIsFirst<T>(before: Order<T>, s: seq<T>, x: T)
    requires Ascends(before, s) && x in s
    ensures x == s[0] || before(s[0], x)
  {
    var i :| 0 <= i < |s| && s[i] == x;
  }

  lemma {:induction false} InsertAscends<T(!new)>(before: Order<T>, s: seq<T>, x: T)
    requires Strict(before) && Ascends(before, s) && forall y :: y in s ==> before(x, y) || before(y, x)
    ensures Ascends(before, Insert(before, s, x))
  {
    if s == [] {
    } else if before(x, s[0]) {
      forall y | y in s ensures before(x, y) {
        HeadIsFirst(before, s, y);
      }
      AscendsFrom(before, x, s);
    } else {
      assert s == [s[0]] + s[1..];
      InsertAscends(before, s[1..], x);
      InsertElements(before, s[1..], x);
      forall y | y in Insert(before, s[1..], x) ensures before(s[0], y) {
        if y in s[1..] {
          var i :| 0 <= i < |s| - 1 && s[1..][i] == y;
          assert s[i + 1] == y;
        }
      }
      AscendsFrom(before, s[0], Insert(before, s[1..], x));
    }
  }

  lemma {:induction false} SortAscends<T(!new)>(before: Order<T>, s: seq<T>)
    requires Strict(before) && Comparable(before, s)
    ensures Ascends(before, Sort(before, s))
  {
    if s != [] {
      var rest := s[1..];
      forall i, j | 0 <= i < j < |rest| ensures before(rest[i], rest[j]) || before(rest[j], rest[i]) {
        assert rest[i] == s[i + 1] && rest[j] == s[j + 1];
      }
      SortAscends(before, rest);
      SortElements(before, rest);
      forall y | y in rest ensures before(s[0], y) || before(y, s[0]) {
        var i :| 0 <= i < |rest| && rest[i] == y;
        assert s[i + 1] == y;
      }
      InsertAscends(before, Sort(before, rest), s[0]);
    }
  }

  lemma TailElements<T(!new)>(before: Order<T>, s: seq<T>, x: T)
    requires Strict(before) && Ascends(before, s) && s != []
    ensures x in s[1..] <==> x in s && x != s[0]
  {
    if x in s[1..] {
      var i :| 0 <= i < |s| - 1 && s[1..][i] == x;
      assert s[i + 1] == x && before(s[0], s[i + 1]);
    }
    if x in s && x != s[0] {
      var i :| 0 <= i < |s| && s[i] == x;
      assert s[1..][i - 1] == x;
    }
  }

  lemma HasHead<T>(s: seq<T>)
    ensures s != [] ==> s[0] in s
  {
  }

  /** An ascending list is determined by its elements. */
  lemma {:induction false} AscendingDetermined<T(!new)>(before: Order<T>, a: seq<T>, b: seq<T>)
    requires Strict(before) && Ascends(before, a) && Ascends(before, b) && SameElements(a, b)
    ensures a == b
  {
    if a == [] {
      HasHead(b);
    } else {
      assert a[0] in b && b[0] in a;
      HeadIsFirst(before, a, b[0]);
      HeadIsFirst(before, b, a[0]);
      forall x ensures x in a[1..] <==> x in b[1..] {
        TailElements(before, a, x);
        TailElements(before, b, x);
      }
      assert Ascends(before, a[1..]) && Ascends(before, b[1..]);
      AscendingDetermined(before, a[1..], b[1..]);
      assert a == [a[0]] + a[1..] && b == [b[0]] + b[1..];
    }
  }

  /** Sorting forgets the order of the input. */
  lemma SortForgetsOrder<T(!new)>(before: Order<T>, a: seq<T>, b: seq<T>)
    requires Strict(before) && Comparable(before, a) && Comparable(before, b) && SameElements(a, b)
    ensures Sort(before, a) == Sort(before, b)
  {
    SortAscends(before, a);
    SortAscends(before, b);
    SortElements(before, a);
    SortElements(before, b);
    AscendingDetermined(before, Sort(before, a), Sort(before, b));
  }
}

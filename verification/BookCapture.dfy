/** The three collections of a captured book, and the check that no order or leg id repeats in it. */
module BookCapture {
  import opened Common
  import opened Dictionaries
  import opened Json
  import ArtifactJson
  import opened ProviderRows
  import opened ProviderBook

  // ---- The ids of an order and its legs ----

  function IdField(v: Json): Json {
    if v.Obj? then Field(v.members, ID) else Null
  }

  function LegIds(es: Elements): seq<Json> {
    match es
    case NoElements => []
    case Element(leg, rest) => [IdField(leg)] + LegIds(rest)
  }

  /** `[order["id"], *(leg["id"] for leg in order["legs"])]`. */
  function Ids(order: Json): seq<Json> {
    var legs := if order.Obj? then Field(order.members, LEGS) else Null;
    [IdField(order)] + (if legs.Arr? then LegIds(legs.elements) else [])
  }

  function AllIds(orders: seq<Json>): seq<Json> {
    if orders == [] then [] else AllIds(orders[..|orders| - 1]) + Ids(orders[|orders| - 1])
  }

  predicate NoRepeats<T(==)>(s: seq<T>) {
    forall i, j :: 0 <= i < j < |s| ==> s[i] != s[j]
  }

  function Elems<T>(s: seq<T>): set<T> {
    set x | x in s
  }

  lemma {:induction false} SizeShowsRepeats<T>(s: seq<T>)
    ensures |Elems(s)| <= |s|
    ensures |Elems(s)| == |s| <==> NoRepeats(s)
  {
    if s != [] {
      var init, last := s[..|s| - 1], s[|s| - 1];
      SizeShowsRepeats(init);
      assert s == init + [last];
      assert Elems(s) == Elems(init) + {last};
      if last in init {
        var i :| 0 <= i < |init| && init[i] == last;
        assert s[i] == s[|s| - 1];
        assert Elems(s) == Elems(init);
      } else {
        assert forall i :: 0 <= i < |init| ==> s[i] == init[i] && init[i] in init;
      }
    }
  }

  lemma JoinedRepeats<T>(a: seq<T>, b: seq<T>)
    ensures NoRepeats(a + b) <==> NoRepeats(a) && NoRepeats(b) && Elems(a) !! Elems(b)
    ensures Elems(a + b) == Elems(a) + Elems(b)
  {
    var s := a + b;
    if NoRepeats(s) {
      forall i, j | 0 <= i < j < |a| ensures a[i] != a[j] {
        assert s[i] == a[i] && s[j] == a[j];
      }
      forall i, j | 0 <= i < j < |b| ensures b[i] != b[j] {
        assert s[|a| + i] == b[i] && s[|a| + j] == b[j];
      }
      forall x | x in a ensures x !in b {
        var i :| 0 <= i < |a| && a[i] == x;
        assert forall j :: 0 <= j < |b| ==> s[|a| + j] == b[j] && s[i] != s[|a| + j];
      }
    }
    if NoRepeats(a) && NoRepeats(b) && Elems(a) !! Elems(b) {
      forall i, j | 0 <= i < j < |s| ensures s[i] != s[j] {
        if i < |a| <= j {
          assert s[i] in Elems(a) && s[j] in Elems(b);
        }
      }
    }
  }

  lemma OneMoreOrder(orders: seq<Json>, order: Json)
    ensures AllIds(orders + [order]) == AllIds(orders) + Ids(order)
    ensures NoRepeats(AllIds(orders + [order])) <==>
              NoRepeats(AllIds(orders)) && |Elems(Ids(order))| == |Ids(order)| && Elems(AllIds(orders)) !! Elems(Ids(order))
    ensures Elems(AllIds(orders + [order])) == Elems(AllIds(orders)) + Elems(Ids(order))
  {
    assert (orders + [order])[..|orders|] == orders;
    JoinedRepeats(AllIds(orders), Ids(order));
    SizeShowsRepeats(Ids(order));
  }

  lemma {:induction false} RepeatsStay(orders: seq<Json>, k: nat)
    requires k <= |orders| && NoRepeats(AllIds(orders))
    ensures NoRepeats(AllIds(orders[..k]))
    decreases |orders|
  {
    if k < |orders| {
      var init := orders[..|orders| - 1];
      assert orders == init + [orders[|orders| - 1]] && init[..k] == orders[..k];
      OneMoreOrder(init, orders[|orders| - 1]);
      RepeatsStay(init, k);
    } else {
      assert orders[..k] == orders;
    }
  }

  /** Accepts exactly the orders among which no order or leg id repeats. */
  method CheckIds(orders: seq<Json>) returns (ok: bool)
    ensures ok <==> NoRepeats(AllIds(orders))
  {
    var seen: set<Json> := {};
    for i := 0 to |orders|
      invariant NoRepeats(AllIds(orders[..i])) && seen == Elems(AllIds(orders[..i]))
    {
      var ids := Ids(orders[i]);
      assert orders[..i + 1] == orders[..i] + [orders[i]];
      OneMoreOrder(orders[..i], orders[i]);
      if (exists id :: id in ids && id in seen) || |ids| != |Elems(ids)| {
        if NoRepeats(AllIds(orders)) {
          RepeatsStay(orders, i + 1);
        }
        return false;
      }
      seen := seen + Elems(ids);
    }
    assert orders[..|orders|] == orders;
    return true;
  }

  lemma {:induction false} IdsAreListed(orders: seq<Json>, i: nat)
    requires i < |orders|
    ensures Elems(Ids(orders[i])) <= Elems(AllIds(orders))
    decreases |orders|
  {
    var n := |orders| - 1;
    var init := orders[..n];
    assert orders == init + [orders[n]];
    OneMoreOrder(init, orders[n]);
    if i < n {
      IdsAreListed(init, i);
      assert init[i] == orders[i];
    }
  }

  lemma {:induction false} OrdersApart(orders: seq<Json>, i: nat, j: nat)
    requires NoRepeats(AllIds(orders)) && i < j < |orders|
    ensures Elems(Ids(orders[i])) !! Elems(Ids(orders[j]))
    decreases |orders|
  {
    var n := |orders| - 1;
    var init := orders[..n];
    assert orders == init + [orders[n]] && init[i] == orders[i];
    OneMoreOrder(init, orders[n]);
    if j < n {
      OrdersApart(init, i, j);
    } else {
      IdsAreListed(init, i);
    }
  }

  /** In accepted orders an id belongs to one order alone, be it the order's own or a leg's. */
  lemma OneOrderPerId(orders: seq<Json>, i: nat, j: nat, id: Json)
    requires NoRepeats(AllIds(orders)) && i < |orders| && j < |orders| && id in Ids(orders[i]) && id in Ids(orders[j])
    ensures i == j
  {
    if i < j {
      OrdersApart(orders, i, j);
    } else if j < i {
      OrdersApart(orders, j, i);
    }
    assert id in Elems(Ids(orders[i])) && id in Elems(Ids(orders[j]));
  }

  // ---- The capture ----

  datatype Book = Book(positions: seq<Json>, orders: seq<Json>, activities: seq<Json>)

  predicate Capturable(positions: seq<Json>, orders: seq<Json>, activities: seq<Json>, number: Numeral) {
    && Collectable(positions, PositionKind(number)) && Collectable(orders, OrderKind(number))
    && Collectable(activities, ActivityKind(number))
    && NoRepeats(AllIds(Collection(orders, OrderKind(number))))
  }

  function BookOf(positions: seq<Json>, orders: seq<Json>, activities: seq<Json>, number: Numeral): Book
    requires Capturable(positions, orders, activities, number)
  {
    Book(Collection(positions, PositionKind(number)), Collection(orders, OrderKind(number)),
         Collection(activities, ActivityKind(number)))
  }

  method CaptureBook(positions: Json, orders: Json, activities: Json, number: Numeral) returns (r: Result<Book, Failure>)
    ensures r.Ok? <==>
              && positions.Arr? && orders.Arr? && activities.Arr?
              && Capturable(Listed(positions.elements), Listed(orders.elements), Listed(activities.elements), number)
    ensures r.Ok? ==>
              r.value == BookOf(Listed(positions.elements), Listed(orders.elements), Listed(activities.elements), number)
  {
    var held := NormalizeCollection(positions, PositionKind(number));
    if held.Err? {
      return Err(held.error);
    }
    var open := NormalizeCollection(orders, OrderKind(number));
    if open.Err? {
      return Err(open.error);
    }
    var distinct := CheckIds(open.value);
    if !distinct {
      return Err(DuplicateItem);
    }
    var done := NormalizeCollection(activities, ActivityKind(number));
    if done.Err? {
      return Err(done.error);
    }
    return Ok(Book(held.value, open.value, done.value));
  }

  /** Whatever order a provider lists positions, orders, the legs of orders and activities in, the same book
      is captured: `between` is `a`'s orders with the legs of each as `b` lists them. */
  lemma CaptureForgetsOrder(fl: ArtifactJson.Floats, number: Numeral, positions: seq<Json>, held: seq<Json>,
                            a: seq<Json>, between: seq<Json>, b: seq<Json>, activities: seq<Json>, done: seq<Json>)
    requires PlainNumbers(number) && TidyRows(positions) && TidyRows(a) && TidyRows(activities)
    requires Capturable(positions, a, activities, number)
    requires multiset(positions) == multiset(held) && multiset(activities) == multiset(done)
    requires |a| == |between| && (forall i :: 0 <= i < |a| ==> Relegged(a[i], between[i])) && multiset(between) == multiset(b)
    ensures Capturable(held, b, done, number) && BookOf(positions, a, activities, number) == BookOf(held, b, done, number)
  {
    KindsShowIdentity(number);
    KindsKeepClear(fl, number);
    TidyRowsAreClear(fl, positions, PositionKind(number));
    TidyRowsAreClear(fl, activities, ActivityKind(number));
    CollectionForgetsOrder(fl, positions, held, PositionKind(number));
    CollectionForgetsOrder(fl, activities, done, ActivityKind(number));
    OrdersForgetOrder(fl, a, between, b, number);
  }
}

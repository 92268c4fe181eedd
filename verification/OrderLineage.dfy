/** Replacement lineage of open orders: which sets of orders are accepted and what their links mean. */
module OrderLineage {
  import opened Common
  import opened Json
  import opened SortedBy
  import Sorting

  const WINDOW: nat := 500

  /** `usable` stands for the structure checks on an open order, which do not look at its links. */
  datatype Order = Order(id: Text, clientId: Text, replacing: Option<Text>, replacedBy: Option<Text>, usable: bool)

  datatype Item = Item(id: Text, clientId: Text, replacing: Option<Text>, replacedBy: Option<Text>)

  datatype Failure = WindowSaturated | ProviderIdDuplicate | LineageIncomplete | ClientIdDuplicate | LineageInvalid | NotUsable

  type Orders = map<Text, Order>

  // ---- What is fetched ----

  predicate DistinctIds(open: seq<Order>) {
    forall i, j :: 0 <= i < j < |open| ==> open[i].id != open[j].id
  }

  function ById(open: seq<Order>): Orders {
    if open == [] then map[]
    else
      var last := open[|open| - 1];
      ById(open[..|open| - 1])[last.id := last]
  }

  function LinksOf(o: Order): set<Text> {
    (if o.replacing.Some? then {o.replacing.value} else {}) + (if o.replacedBy.Some? then {o.replacedBy.value} else {})
  }

  /** The ids that open orders link to and that are not open themselves. */
  function Linked(open: seq<Order>): set<Text> {
    (set o, id | o in open && id in LinksOf(o) :: id) - ById(open).Keys
  }

  type Lookup = Text -> Option<Order>

  predicate Found(lookup: Lookup, id: Text) {
    lookup(id).Some? && lookup(id).value.id == id && lookup(id).value.clientId != []
  }

  function LookedUp(ids: set<Text>, lookup: Lookup): Orders {
    map id | id in ids && lookup(id).Some? :: lookup(id).value
  }

  function Fetched(open: seq<Order>, lookup: Lookup): Orders {
    ById(open) + LookedUp(Linked(open), lookup)
  }

  // ---- What is accepted ----

  predicate UniqueClientIds(m: Orders) {
    forall p, q :: p in m && q in m && p != q ==> m[p].clientId != m[q].clientId
  }

  predicate MirroredAt(m: Orders, p: Text)
    requires p in m
  {
    && (m[p].replacing.Some? ==> m[p].replacing.value in m && m[m[p].replacing.value].replacedBy == Some(m[p].id))
    && (m[p].replacedBy.Some? ==> m[p].replacedBy.value in m && m[m[p].replacedBy.value].replacing == Some(m[p].id))
  }

  predicate Mirrored(m: Orders) {
    forall p :: p in m ==> MirroredAt(m, p)
  }

  predicate Accepts(open: seq<Order>, lookup: Lookup) {
    && |open| < WINDOW && DistinctIds(open)
    && (forall id :: id in Linked(open) ==> Found(lookup, id))
    && UniqueClientIds(Fetched(open, lookup)) && Mirrored(Fetched(open, lookup))
    && (forall o :: o in open ==> o.usable)
  }

  function ClientIdAt(m: Orders, link: Option<Text>): Option<Text> {
    if link.Some? && link.value in m then Some(m[link.value].clientId) else None
  }

  function ItemOf(o: Order, m: Orders): Item {
    Item(o.id, o.clientId, ClientIdAt(m, o.replacing), ClientIdAt(m, o.replacedBy))
  }

  function Items(open: seq<Order>, m: Orders): seq<Item> {
    if open == [] then [] else Items(open[..|open| - 1], m) + [ItemOf(open[|open| - 1], m)]
  }

  function ItemKey(item: Item): Text {
    item.clientId
  }

  // ---- Counting distinct keys ----

  lemma {:induction false} ByIdHolds(open: seq<Order>, id: Text)
    ensures id in ById(open) <==> exists i :: 0 <= i < |open| && open[i].id == id
    ensures id in ById(open) ==> ById(open)[id] in open && ById(open)[id].id == id
    ensures |ById(open)| <= |open|
  {
    if open != [] {
      var init, last := open[..|open| - 1], open[|open| - 1];
      ByIdHolds(init, id);
      assert open == init + [last];
      if id in ById(init) {
        var i :| 0 <= i < |init| && init[i].id == id;
        assert open[i].id == id;
      }
      if exists i :: 0 <= i < |open| && open[i].id == id {
        var i :| 0 <= i < |open| && open[i].id == id;
        assert i < |init| ==> init[i].id == id;
      }
    }
  }

  lemma GrowsByKey(m: Orders, id: Text, o: Order)
    ensures |m[id := o]| == |m| + (if id in m then 0 else 1)
  {
    assert m[id := o].Keys == m.Keys + {id};
    assert |m.Keys| == |m| && |m[id := o].Keys| == |m[id := o]|;
  }

  lemma {:induction false} SizeShowsDistinct(open: seq<Order>)
    ensures |ById(open)| == |open| <==> DistinctIds(open)
    ensures DistinctIds(open) ==> forall o :: o in open ==> o.id in ById(open) && ById(open)[o.id] == o
  {
    if open != [] {
      var init, last := open[..|open| - 1], open[|open| - 1];
      SizeShowsDistinct(init);
      ByIdHolds(init, last.id);
      GrowsByKey(ById(init), last.id, last);
      assert open == init + [last];
      if DistinctIds(open) {
        forall i, j | 0 <= i < j < |init| ensures init[i].id != init[j].id {
          assert open[i].id != open[j].id;
        }
      } else if DistinctIds(init) {
        var i, j :| 0 <= i < j < |open| && open[i].id == open[j].id;
        assert j == |init| && init[i].id == last.id;
      }
    }
  }

  function ClientIds(m: Orders): set<Text> {
    set p | p in m :: m[p].clientId
  }

  lemma {:induction false} SizeShowsUnique(m: Orders)
    ensures |ClientIds(m)| <= |m|
    ensures |ClientIds(m)| == |m| <==> UniqueClientIds(m)
    decreases |m|
  {
    if m == map[] {
      assert ClientIds(m) == {};
    } else {
      var p :| p in m;
      var rest := m - {p};
      assert m == rest[p := m[p]];
      GrowsByKey(rest, p, m[p]);
      SizeShowsUnique(rest);
      assert ClientIds(m) == ClientIds(rest) + {m[p].clientId};
      if m[p].clientId in ClientIds(rest) {
        var q :| q in rest && rest[q].clientId == m[p].clientId;
        assert p in m && q in m && p != q;
      } else if UniqueClientIds(rest) {
        forall a, b | a in m && b in m && a != b ensures m[a].clientId != m[b].clientId {
          assert a != p ==> rest[a].clientId in ClientIds(rest);
          assert b != p ==> rest[b].clientId in ClientIds(rest);
        }
      } else {
        var a, b :| a in rest && b in rest && a != b && rest[a].clientId == rest[b].clientId;
        assert a in m && b in m && m[a].clientId == m[b].clientId;
      }
    }
  }

  // ---- The reader ----

  method Index(open: seq<Order>) returns (m: Orders)
    ensures m == ById(open)
  {
    m := map[];
    for i := 0 to |open|
      invariant m == ById(open[..i])
    {
      assert open[..i + 1][..i] == open[..i];
      m := m[open[i].id := open[i]];
    }
    assert open[..|open|] == open;
  }

  lemma LookedUpGrows(m: Orders, done: set<Text>, lookup: Lookup, id: Text)
    requires lookup(id).Some?
    ensures m + LookedUp(done + {id}, lookup) == (m + LookedUp(done, lookup))[id := lookup(id).value]
  {
  }

  /** The orders named by `ids` join those already known. */
  method FetchLinked(known: Orders, ids: set<Text>, lookup: Lookup) returns (r: Option<Orders>)
    ensures r.Some? <==> forall id :: id in ids ==> Found(lookup, id)
    ensures r.Some? ==> r.value == known + LookedUp(ids, lookup)
  {
    var m, pending := known, ids;
    ghost var done: set<Text> := {};
    assert m + LookedUp({}, lookup) == m;
    while pending != {}
      invariant done == ids - pending && pending <= ids
      invariant forall id :: id in done ==> Found(lookup, id)
      invariant m == known + LookedUp(done, lookup)
    {
      var id :| id in pending;
      if !Found(lookup, id) {
        return None;
      }
      LookedUpGrows(known, done, lookup, id);
      m := m[id := lookup(id).value];
      pending, done := pending - {id}, done + {id};
    }
    assert done == ids;
    return Some(m);
  }

  method CheckLineage(m: Orders) returns (problem: Option<Failure>)
    ensures problem == None <==> UniqueClientIds(m) && Mirrored(m)
  {
    SizeShowsUnique(m);
    if |ClientIds(m)| != |m| {
      return Some(ClientIdDuplicate);
    }
    if !Mirrored(m) {
      return Some(LineageInvalid);
    }
    return None;
  }

  method CheckWindow(open: seq<Order>) returns (r: Result<Orders, Failure>)
    ensures r.Ok? <==> |open| < WINDOW && DistinctIds(open)
    ensures r.Ok? ==> r.value == ById(open)
  {
    if |open| >= WINDOW {
      return Err(WindowSaturated);
    }
    var known := Index(open);
    SizeShowsDistinct(open);
    if |known| != |open| {
      return Err(ProviderIdDuplicate);
    }
    return Ok(known);
  }

  /** Accepts exactly the acceptable order sets; the items carry client ids in place of provider ids. */
  method OpenOrders(open: seq<Order>, lookup: Lookup) returns (r: Result<seq<Item>, Failure>)
    ensures r.Ok? <==> Accepts(open, lookup)
    ensures r.Ok? ==> r.value == SortBy(ItemKey, Items(open, Fetched(open, lookup)))
  {
    var known := CheckWindow(open);
    if known.Err? {
      return Err(known.error);
    }
    var fetched := FetchLinked(known.value, Linked(open), lookup);
    if fetched == None {
      return Err(LineageIncomplete);
    }
    var problem := CheckLineage(fetched.value);
    if problem.Some? {
      return Err(problem.value);
    }
    if exists o :: o in open && !o.usable {
      return Err(NotUsable);
    }
    return Ok(SortBy(ItemKey, Items(open, fetched.value)));
  }

  // ---- What acceptance means ----

  /** Every accepted order is filed under its own id. */
  lemma FetchedById(open: seq<Order>, lookup: Lookup, p: Text)
    requires Accepts(open, lookup) && p in Fetched(open, lookup)
    ensures Fetched(open, lookup)[p].id == p
  {
    ByIdHolds(open, p);
    assert p in Linked(open) ==> Found(lookup, p);
  }

  /** Among the fetched orders, "replaces" and "replaced by" are inverse to each other, both are
      injective, and neither leads outside. */
  lemma LineageIsInverse(open: seq<Order>, lookup: Lookup, p: Text, q: Text)
    requires Accepts(open, lookup) && p in Fetched(open, lookup)
    ensures var m := Fetched(open, lookup);
            && (m[p].replacing == Some(q) ==> q in m && m[q].replacedBy == Some(p))
            && (m[p].replacedBy == Some(q) ==> q in m && m[q].replacing == Some(p))
            && (q in m && m[p].replacing == m[q].replacing != None ==> p == q)
            && (q in m && m[p].replacedBy == m[q].replacedBy != None ==> p == q)
  {
    var m := Fetched(open, lookup);
    FetchedById(open, lookup, p);
    assert MirroredAt(m, p);
    if q in m {
      FetchedById(open, lookup, q);
      assert MirroredAt(m, q);
    }
  }

  lemma {:induction false} ItemsAre(open: seq<Order>, m: Orders, item: Item)
    ensures item in Items(open, m) <==> exists o :: o in open && item == ItemOf(o, m)
  {
    if open != [] {
      var init, last := open[..|open| - 1], open[|open| - 1];
      ItemsAre(init, m, item);
      assert open == init + [last];
      if exists o :: o in open && item == ItemOf(o, m) {
        var o :| o in open && item == ItemOf(o, m);
        assert o in init || o == last;
      }
    }
  }

  lemma ItemComesFrom(open: seq<Order>, lookup: Lookup, item: Item) returns (o: Order)
    requires Accepts(open, lookup) && item in SortBy(ItemKey, Items(open, Fetched(open, lookup)))
    ensures o in open && item == ItemOf(o, Fetched(open, lookup))
    ensures o.id in Fetched(open, lookup) && Fetched(open, lookup)[o.id] == o
  {
    var m := Fetched(open, lookup);
    Sorting.SortElements(ByKey(ItemKey), Items(open, m));
    ItemsAre(open, m, item);
    o :| o in open && item == ItemOf(o, m);
    SizeShowsDistinct(open);
  }

  /** A client id names one fetched order. */
  lemma OneOrderPerClient(open: seq<Order>, lookup: Lookup, p: Text, q: Text)
    requires Accepts(open, lookup) && p in Fetched(open, lookup) && q in Fetched(open, lookup)
    ensures Fetched(open, lookup)[p].clientId == Fetched(open, lookup)[q].clientId ==> p == q
  {
  }

  lemma LinkNamesOrder(open: seq<Order>, lookup: Lookup, p: Text, q: Text)
    requires Accepts(open, lookup) && p in Fetched(open, lookup) && q in Fetched(open, lookup)
    ensures var m := Fetched(open, lookup);
            && (ClientIdAt(m, m[p].replacing) == Some(m[q].clientId) <==> m[p].replacing == Some(q))
            && (ClientIdAt(m, m[p].replacedBy) == Some(m[q].clientId) <==> m[p].replacedBy == Some(q))
  {
    var m := Fetched(open, lookup);
    assert MirroredAt(m, p);
    if m[p].replacing.Some? {
      OneOrderPerClient(open, lookup, m[p].replacing.value, q);
    }
    if m[p].replacedBy.Some? {
      OneOrderPerClient(open, lookup, m[p].replacedBy.value, q);
    }
  }

  /** The client-id links of the returned items mirror each other just as the provider-id links do, and
      no link is dropped. */
  lemma ItemLinksAgree(open: seq<Order>, lookup: Lookup, a: Item, b: Item)
    requires Accepts(open, lookup)
    requires a in SortBy(ItemKey, Items(open, Fetched(open, lookup)))
    requires b in SortBy(ItemKey, Items(open, Fetched(open, lookup)))
    ensures a.replacing == Some(b.clientId) <==> b.replacedBy == Some(a.clientId)
    ensures a.clientId == b.clientId ==> a == b
    ensures exists o :: o in open && o.id == a.id && o.clientId == a.clientId &&
                        (o.replacing.Some? <==> a.replacing.Some?) && (o.replacedBy.Some? <==> a.replacedBy.Some?)
  {
    var o := ItemComesFrom(open, lookup, a);
    var q := ItemComesFrom(open, lookup, b);
    LinkNamesOrder(open, lookup, o.id, q.id);
    LinkNamesOrder(open, lookup, q.id, o.id);
    LineageIsInverse(open, lookup, o.id, q.id);
    LineageIsInverse(open, lookup, q.id, o.id);
    OneOrderPerClient(open, lookup, o.id, q.id);
    assert MirroredAt(Fetched(open, lookup), o.id);
  }

  // ---- Against a consistent provider ----

  /** All orders of an account, under their own ids, with distinct client ids and mirrored links. */
  predicate Consistent(w: Orders) {
    UniqueClientIds(w) && Mirrored(w) && forall p :: p in w ==> w[p].id == p && w[p].clientId != []
  }

  /** The provider lists some of the account's orders as open and finds any of them by id. */
  ghost predicate Serves(w: Orders, open: seq<Order>, lookup: Lookup) {
    && (forall o :: o in open ==> o.id in w && w[o.id] == o)
    && (forall id :: lookup(id) == if id in w then Some(w[id]) else None)
  }

  /** Every order one replacement away from an open order links only to orders that are open or one
      replacement away themselves. */
  predicate WithinOneReplacement(w: Orders, open: seq<Order>) {
    forall id :: id in Linked(open) && id in w ==> LinksOf(w[id]) <= ById(open).Keys + Linked(open)
  }

  lemma FetchedFromWorld(w: Orders, open: seq<Order>, lookup: Lookup, p: Text)
    requires Consistent(w) && Serves(w, open, lookup)
    ensures p in Linked(open) ==> p in w && Found(lookup, p)
    ensures p in Fetched(open, lookup) <==> p in ById(open).Keys + Linked(open)
    ensures p in Fetched(open, lookup) ==> p in w && Fetched(open, lookup)[p] == w[p]
  {
    ByIdHolds(open, p);
    if p in Linked(open) {
      var o :| o in open && p in LinksOf(o);
      assert MirroredAt(w, o.id);
    }
  }

  /** In a part of a mirrored whole, an order is mirrored exactly when its links stay inside. */
  lemma PartMirrors(w: Orders, m: Orders, p: Text)
    requires Mirrored(w) && m.Keys <= w.Keys && (forall q :: q in m ==> m[q] == w[q]) && p in m
    ensures MirroredAt(m, p) <==> LinksOf(w[p]) <= m.Keys
  {
    assert MirroredAt(w, p);
  }

  lemma OpenLinksInside(open: seq<Order>, p: Text)
    requires p in ById(open)
    ensures LinksOf(ById(open)[p]) <= ById(open).Keys + Linked(open)
  {
    ByIdHolds(open, p);
  }

  /** A consistent account's open orders are accepted exactly when no order lies two replacements away:
      the reader looks one link further than the open orders and no more. */
  lemma ConsistentExactly(w: Orders, open: seq<Order>, lookup: Lookup)
    requires Consistent(w) && Serves(w, open, lookup)
    ensures Accepts(open, lookup) <==>
              && |open| < WINDOW && DistinctIds(open) && (forall o :: o in open ==> o.usable)
              && WithinOneReplacement(w, open)
  {
    var m := Fetched(open, lookup);
    forall p ensures p in m <==> p in ById(open).Keys + Linked(open)
      ensures p in Linked(open) ==> p in w && Found(lookup, p)
      ensures p in m ==> p in w && m[p] == w[p]
    {
      FetchedFromWorld(w, open, lookup, p);
    }
    assert m.Keys == ById(open).Keys + Linked(open);
    forall p | p in m
      ensures MirroredAt(m, p) <==> LinksOf(w[p]) <= m.Keys
      ensures p !in Linked(open) ==> LinksOf(w[p]) <= m.Keys
    {
      PartMirrors(w, m, p);
      if p !in Linked(open) {
        OpenLinksInside(open, p);
      }
    }
    assert Mirrored(m) <==> WithinOneReplacement(w, open);
  }

  /** So an open order whose predecessor was itself a replacement is refused, unless something else that
      is open brings the first order in. */
  lemma TwiceReplacedIsRefused(w: Orders, open: seq<Order>, lookup: Lookup, o: Order, second: Text, first: Text)
    requires Consistent(w) && Serves(w, open, lookup)
    requires o in open && o.replacing == Some(second) && second !in ById(open)
    requires second in w && w[second].replacing == Some(first) && first !in ById(open).Keys + Linked(open)
    ensures !Accepts(open, lookup)
  {
    assert second in LinksOf(o) && second in Linked(open);
    assert first in LinksOf(w[second]);
    ConsistentExactly(w, open, lookup);
  }

  /** Nothing rules out cycles: an order that names itself on both sides is accepted. */
  lemma SelfReplacementIsAccepted(o: Order, lookup: Lookup)
    requires o.usable && o.replacing == Some(o.id) && o.replacedBy == Some(o.id)
    ensures Accepts([o], lookup)
  {
    assert ById([o]) == map[o.id := o] by {
      assert [o][..0] == [];
    }
    assert Linked([o]) == {};
    assert Fetched([o], lookup) == map[o.id := o];
  }
}

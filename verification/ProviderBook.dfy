/** Provider rows as the rehearsal records them: bounded fields, no repeated identity, and an order that
    does not depend on the order the provider listed them in. */
module ProviderBook {
  import opened Common
  import opened Dictionaries
  import opened Json
  import opened JsonRoundTrip
  import opened TextOrder
  import opened SortedBy
  import opened ArtifactJson
  import opened ArtifactBytes
  import opened ArtifactPayload
  import opened ProviderRows
  import opened Surrogates
  import Sorting

  const MAX_PROVIDER_ITEMS: nat := 10_000
  const MAX_LEGS: nat := 4

  datatype Failure = CollectionInvalid | CollectionTooLarge | RowInvalid | DuplicateItem

  // ---- A collection ----

  /** How the rows of one collection are reduced, and the text field that identifies them. */
  datatype Kind = Kind(normalize: Members -> Option<Members>, identity: Text)

  /** The reduced row `ms` shows the identity that `row` has under `key`. */
  predicate Shows(row: Members, ms: Members, key: Text) {
    && DistinctKeys(ms) && BoundedString(Field(row, key), false).Some?
    && Lookup(ms, key) == Some(Str(BoundedString(Field(row, key), false).value))
  }

  predicate ShowsIdentityAt(k: Kind, row: Members) {
    k.normalize(row).Some? ==> Shows(row, k.normalize(row).value, k.identity)
  }

  /** A reduced row still shows its identity. */
  ghost predicate ShowsIdentity(k: Kind) {
    forall row :: ShowsIdentityAt(k, row)
  }

  function Listed(es: Elements): seq<Json> {
    match es
    case NoElements => []
    case Element(v, rest) => [v] + Listed(rest)
  }

  function ToElements(vs: seq<Json>): Elements {
    if vs == [] then NoElements else Element(vs[0], ToElements(vs[1..]))
  }

  predicate RowOk(v: Json, k: Kind) {
    && v.Obj? && CountMembers(v.members) <= MAX_PROVIDER_ITEMS
    && BoundedString(Field(v.members, k.identity), false).Some? && k.normalize(v.members).Some?
  }

  function IdentityOf(v: Json, k: Kind): Text
    requires RowOk(v, k)
  {
    BoundedString(Field(v.members, k.identity), false).value
  }

  predicate Collectable(values: seq<Json>, k: Kind) {
    && |values| <= MAX_PROVIDER_ITEMS
    && (forall i :: 0 <= i < |values| ==> RowOk(values[i], k))
    && (forall i, j :: 0 <= i < j < |values| ==> IdentityOf(values[i], k) != IdentityOf(values[j], k))
  }

  function RowOf(v: Json, k: Kind): Json
    requires RowOk(v, k)
  {
    Obj(k.normalize(v.members).value)
  }

  function Rows(values: seq<Json>, k: Kind): seq<Json>
    requires forall i :: 0 <= i < |values| ==> RowOk(values[i], k)
  {
    seq(|values|, i requires 0 <= i < |values| => RowOf(values[i], k))
  }

  /** Rows are put in the order of their canonical text. */
  function RowKey(row: Json): Text {
    Payload(row)
  }

  function Collection(values: seq<Json>, k: Kind): seq<Json>
    requires Collectable(values, k)
  {
    SortBy(RowKey, Rows(values, k))
  }

  method ReadRow(v: Json, k: Kind) returns (r: Option<(Text, Json)>)
    ensures r.Some? <==> RowOk(v, k)
    ensures r.Some? ==> r.value == (IdentityOf(v, k), RowOf(v, k))
  {
    if !v.Obj? || CountMembers(v.members) > MAX_PROVIDER_ITEMS {
      return None;
    }
    var identity := BoundedString(Field(v.members, k.identity), false);
    if identity == None {
      return None;
    }
    var row := k.normalize(v.members);
    if row == None {
      return None;
    }
    return Some((identity.value, Obj(row.value)));
  }

  function Identities(items: seq<Json>, k: Kind): set<Text>
    requires forall i :: 0 <= i < |items| ==> RowOk(items[i], k)
  {
    set j | 0 <= j < |items| :: IdentityOf(items[j], k)
  }

  lemma OneMoreRow(items: seq<Json>, v: Json, k: Kind)
    requires Collectable(items, k) && |items| < MAX_PROVIDER_ITEMS && RowOk(v, k)
    ensures Collectable(items + [v], k) <==> IdentityOf(v, k) !in Identities(items, k)
    ensures Rows(items + [v], k) == Rows(items, k) + [RowOf(v, k)]
    ensures Identities(items + [v], k) == Identities(items, k) + {IdentityOf(v, k)}
  {
    var more := items + [v];
    assert more[|items|] == v && forall i :: 0 <= i < |items| ==> more[i] == items[i];
    if IdentityOf(v, k) in Identities(items, k) {
      var j :| 0 <= j < |items| && IdentityOf(items[j], k) == IdentityOf(v, k);
      assert IdentityOf(more[j], k) == IdentityOf(more[|items|], k);
    }
  }

  lemma CollectablePrefix(items: seq<Json>, n: nat, k: Kind)
    requires n <= |items|
    ensures Collectable(items, k) ==> Collectable(items[..n], k)
  {
  }

  /** Collects exactly the rows that can be read and have distinct identities. */
  method NormalizeCollection(values: Json, k: Kind) returns (r: Result<seq<Json>, Failure>)
    ensures r.Ok? <==> values.Arr? && Collectable(Listed(values.elements), k)
    ensures r.Ok? ==> r.value == Collection(Listed(values.elements), k)
  {
    if !values.Arr? {
      return Err(CollectionInvalid);
    }
    var items := Listed(values.elements);
    if |items| > MAX_PROVIDER_ITEMS {
      return Err(CollectionTooLarge);
    }
    var result: seq<Json>, seen: set<Text> := [], {};
    for i := 0 to |items|
      invariant Collectable(items[..i], k) && result == Rows(items[..i], k) && seen == Identities(items[..i], k)
    {
      assert items[..i + 1] == items[..i] + [items[i]];
      CollectablePrefix(items, i + 1, k);
      var row := ReadRow(items[i], k);
      if row == None {
        return Err(RowInvalid);
      }
      OneMoreRow(items[..i], items[i], k);
      if row.value.0 in seen {
        return Err(DuplicateItem);
      }
      seen := seen + {row.value.0};
      result := result + [row.value.1];
    }
    assert items[..|items|] == items;
    return Ok(SortBy(RowKey, result));
  }

  // ---- Distinct identities give distinct rows ----

  lemma FrozenGet(fl: Floats, ms: Members, key: Text)
    requires DistinctKeys(ms) && Has(ms, key)
    ensures Frozen(Obj(ms)).Obj? && Has(Frozen(Obj(ms)).members, key)
    ensures Get(Frozen(Obj(ms)).members, key) == Frozen(Get(ms, key))
  {
    FrozenMembersHas(ms, key);
    SortKeepsLookup(FrozenMembers(ms), key);
  }

  /** Distinct keys, and no string with a high surrogate directly before a low one: what the printer
      prints unambiguously. */
  predicate Clear(fl: Floats, v: Json) {
    Printable(fl.repr, v)
  }

  /** The canonical text of a value determines it, up to the order of keys. */
  lemma TextDetermines(fl: Floats, a: Json, b: Json)
    requires Clear(fl, a) && Clear(fl, b)
    ensures Payload(a) == Payload(b) <==> Frozen(a) == Frozen(b)
  {
    PrintableFreezes(fl.repr, a);
    PrintableFreezes(fl.repr, b);
    ValueRoundTrip(fl.repr, Frozen(a), [10]);
    ValueRoundTrip(fl.repr, Frozen(b), [10]);
  }

  ghost predicate ClearRows(fl: Floats, values: seq<Json>, k: Kind) {
    forall i :: 0 <= i < |values| && RowOk(values[i], k) ==> Clear(fl, RowOf(values[i], k))
  }

  lemma RowsDiffer(fl: Floats, a: Json, b: Json, k: Kind)
    requires ShowsIdentity(k) && RowOk(a, k) && RowOk(b, k) && IdentityOf(a, k) != IdentityOf(b, k)
    requires Clear(fl, RowOf(a, k)) && Clear(fl, RowOf(b, k))
    ensures RowKey(RowOf(a, k)) != RowKey(RowOf(b, k))
  {
    assert ShowsIdentityAt(k, a.members) && ShowsIdentityAt(k, b.members);
    TextDetermines(fl, RowOf(a, k), RowOf(b, k));
    FrozenGet(fl, RowOf(a, k).members, k.identity);
    FrozenGet(fl, RowOf(b, k).members, k.identity);
  }

  lemma RowsAreDistinct(fl: Floats, values: seq<Json>, k: Kind)
    requires ShowsIdentity(k) && Collectable(values, k) && ClearRows(fl, values, k)
    ensures DistinctBy(RowKey, Rows(values, k))
  {
    forall i, j | 0 <= i < j < |values| ensures RowKey(Rows(values, k)[i]) != RowKey(Rows(values, k)[j]) {
      RowsDiffer(fl, values[i], values[j], k);
    }
  }

  lemma RowsElements(a: seq<Json>, b: seq<Json>, k: Kind)
    requires Collectable(a, k) && Collectable(b, k) && forall v :: v in a ==> v in b
    ensures forall r :: r in Rows(a, k) ==> r in Rows(b, k)
  {
    forall r | r in Rows(a, k) ensures r in Rows(b, k) {
      var i :| 0 <= i < |a| && Rows(a, k)[i] == r;
      assert a[i] in b;
      var j :| 0 <= j < |b| && b[j] == a[i];
      assert Rows(b, k)[j] == r;
    }
  }

  lemma TwoInMultiset<T>(s: seq<T>, i: nat, j: nat)
    requires i < j < |s| && s[i] == s[j]
    ensures multiset(s)[s[i]] >= 2
  {
    assert s == s[..j] + s[j..];
    assert s[..j][i] in multiset(s[..j]) && s[j..][0] in multiset(s[j..]);
  }

  lemma {:induction false} MultisetHasTwo<T>(s: seq<T>, x: T)
    requires multiset(s)[x] >= 2
    ensures exists i, j :: 0 <= i < j < |s| && s[i] == x && s[j] == x
  {
    var init, last := s[..|s| - 1], s[|s| - 1];
    assert s == init + [last];
    if last == x {
      assert x in init;
      var i :| 0 <= i < |init| && init[i] == x;
      assert s[i] == x && s[|s| - 1] == x;
    } else {
      MultisetHasTwo(init, x);
      var i, j :| 0 <= i < j < |init| && init[i] == x && init[j] == x;
      assert s[i] == x && s[j] == x;
    }
  }

  lemma SameMultisetSameElements<T(!new)>(a: seq<T>, b: seq<T>)
    requires multiset(a) == multiset(b)
    ensures Sorting.SameElements(a, b) && |a| == |b|
  {
    forall x ensures x in a <==> x in b {
      assert x in multiset(a) <==> x in multiset(b);
    }
    assert |multiset(a)| == |a| && |multiset(b)| == |b|;
  }

  lemma DistinctAcross(a: seq<Json>, b: seq<Json>, k: Kind, i: nat, j: nat)
    requires Collectable(a, k) && multiset(a) == multiset(b) && i < j < |b| && RowOk(b[i], k) && RowOk(b[j], k)
    ensures IdentityOf(b[i], k) != IdentityOf(b[j], k)
  {
    SameMultisetSameElements(a, b);
    if b[i] == b[j] {
      TwoInMultiset(b, i, j);
      MultisetHasTwo(a, b[i]);
    } else {
      assert b[i] in a && b[j] in a;
      var m :| 0 <= m < |a| && a[m] == b[i];
      var n :| 0 <= n < |a| && a[n] == b[j];
      assert m != n;
    }
  }

  /** A listing in another order is accepted too. */
  lemma PermutedIsCollectable(a: seq<Json>, b: seq<Json>, k: Kind)
    requires Collectable(a, k) && multiset(a) == multiset(b)
    ensures Collectable(b, k)
  {
    SameMultisetSameElements(a, b);
    forall i | 0 <= i < |b| ensures RowOk(b[i], k) {
      assert b[i] in a;
    }
    forall i, j | 0 <= i < j < |b| ensures IdentityOf(b[i], k) != IdentityOf(b[j], k) {
      DistinctAcross(a, b, k, i, j);
    }
  }

  /** The collected rows do not depend on the order in which the provider listed them. */
  lemma CollectionForgetsOrder(fl: Floats, a: seq<Json>, b: seq<Json>, k: Kind)
    requires ShowsIdentity(k) && Collectable(a, k) && multiset(a) == multiset(b) && ClearRows(fl, a, k)
    ensures Collectable(b, k) && Collection(a, k) == Collection(b, k)
  {
    PermutedIsCollectable(a, b, k);
    SameMultisetSameElements(a, b);
    forall i | 0 <= i < |b| ensures Clear(fl, RowOf(b[i], k)) {
      assert b[i] in a;
    }
    RowsAreDistinct(fl, a, k);
    RowsAreDistinct(fl, b, k);
    RowsElements(a, b, k);
    RowsElements(b, a, k);
    SortByForgetsOrder(RowKey, Rows(a, k), Rows(b, k));
  }

  // ---- The kinds of row ----

  function PositionKind(number: Numeral): Kind {
    Kind((row: Members) => Reduced(row, POSITION, number), ASSET_ID)
  }

  function ActivityKind(number: Numeral): Kind {
    Kind((row: Members) => Reduced(row, ACTIVITY, number), ID)
  }

  /** An order with its legs, already collected. */
  function OrderWith(row: Members, number: Numeral, legs: Elements): Option<Members> {
    var fields := Reduced(row, ORDER, number);
    if fields.Some? then Some(Union(fields.value, Member(LEGS, Arr(legs), NoMembers))) else None
  }

  /** A leg may not have legs of its own. */
  function LeafOrder(row: Members, number: Numeral): Option<Members> {
    var legs := Field(row, LEGS);
    if legs == Null || legs == Arr(NoElements) then OrderWith(row, number, NoElements) else None
  }

  function LeafKind(number: Numeral): Kind {
    Kind((row: Members) => LeafOrder(row, number), ID)
  }

  function RootOrder(row: Members, number: Numeral): Option<Members> {
    var legs := Field(row, LEGS);
    if legs == Null then OrderWith(row, number, NoElements)
    else if legs.Arr? && Count(legs.elements) <= MAX_LEGS && Collectable(Listed(legs.elements), LeafKind(number)) then
      OrderWith(row, number, ToElements(Collection(Listed(legs.elements), LeafKind(number))))
    else None
  }

  function OrderKind(number: Numeral): Kind {
    Kind((row: Members) => RootOrder(row, number), ID)
  }

  /** Whether an empty field is required changes what is accepted, not what is shown. */
  lemma ReducedShows(row: Members, shape: Shape, number: Numeral, key: Text)
    requires Reduced(row, shape, number).Some? && key in shape.texts && key !in shape.numbers && key !in shape.flags
    ensures Shows(row, Reduced(row, shape, number).value, key)
  {
    ReducedText(row, shape, number, key);
    ReducedDistinct(row, shape, number);
  }

  lemma OrderShows(row: Members, number: Numeral, legs: Elements)
    requires OrderWith(row, number, legs).Some?
    ensures Shows(row, OrderWith(row, number, legs).value, ID)
  {
    OrderIsPlain();
    ReducedShows(row, ORDER, number, ID);
    UnionLookup(Reduced(row, ORDER, number).value, Member(LEGS, Arr(legs), NoMembers), ID);
  }

  lemma PositionsShow(number: Numeral)
    ensures ShowsIdentity(PositionKind(number))
  {
    PositionIsPlain();
    forall row ensures ShowsIdentityAt(PositionKind(number), row) {
      if Reduced(row, POSITION, number).Some? {
        ReducedShows(row, POSITION, number, ASSET_ID);
      }
    }
  }

  lemma ActivitiesShow(number: Numeral)
    ensures ShowsIdentity(ActivityKind(number))
  {
    ActivityIsPlain();
    forall row ensures ShowsIdentityAt(ActivityKind(number), row) {
      if Reduced(row, ACTIVITY, number).Some? {
        ReducedShows(row, ACTIVITY, number, ID);
      }
    }
  }

  lemma LeavesShow(number: Numeral)
    ensures ShowsIdentity(LeafKind(number))
  {
    forall row ensures ShowsIdentityAt(LeafKind(number), row) {
      if LeafOrder(row, number).Some? {
        OrderShows(row, number, NoElements);
      }
    }
  }

  function LegsOf(row: Members, number: Numeral): Elements
    requires RootOrder(row, number).Some?
  {
    if Field(row, LEGS) == Null then NoElements
    else ToElements(Collection(Listed(Field(row, LEGS).elements), LeafKind(number)))
  }

  lemma RootShows(row: Members, number: Numeral)
    requires RootOrder(row, number).Some?
    ensures Shows(row, RootOrder(row, number).value, ID)
  {
    assert RootOrder(row, number) == OrderWith(row, number, LegsOf(row, number));
    OrderShows(row, number, LegsOf(row, number));
  }

  lemma OrdersShow(number: Numeral)
    ensures ShowsIdentity(OrderKind(number))
  {
    var k := OrderKind(number);
    forall row ensures ShowsIdentityAt(k, row) {
      assert k.normalize(row) == RootOrder(row, number);
      if RootOrder(row, number).Some? {
        RootShows(row, number);
      }
    }
  }

  /** Every kind of row shows its identity, so rows with different identities stay different. */
  lemma KindsShowIdentity(number: Numeral)
    ensures ShowsIdentity(PositionKind(number)) && ShowsIdentity(ActivityKind(number))
    ensures ShowsIdentity(LeafKind(number)) && ShowsIdentity(OrderKind(number))
  {
    PositionsShow(number);
    ActivitiesShow(number);
    LeavesShow(number);
    OrdersShow(number);
  }

  lemma {:induction false} CountIsLength(es: Elements)
    ensures |Listed(es)| == Count(es)
  {
    if es.Element? {
      CountIsLength(es.tail);
    }
  }

  /** The order in which a provider lists the legs of an order does not matter either. */
  lemma LegsForgetOrder(fl: Floats, a: Members, b: Members, number: Numeral)
    requires RootOrder(a, number).Some? && Reduced(a, ORDER, number) == Reduced(b, ORDER, number)
    requires Field(a, LEGS).Arr? && Field(b, LEGS).Arr?
    requires multiset(Listed(Field(a, LEGS).elements)) == multiset(Listed(Field(b, LEGS).elements))
    requires ClearRows(fl, Listed(Field(a, LEGS).elements), LeafKind(number))
    ensures RootOrder(a, number) == RootOrder(b, number)
  {
    var x, y := Field(a, LEGS).elements, Field(b, LEGS).elements;
    LeavesShow(number);
    CountIsLength(x);
    CountIsLength(y);
    SameMultisetSameElements(Listed(x), Listed(y));
    CollectionForgetsOrder(fl, Listed(x), Listed(y), LeafKind(number));
  }

  // ---- Which rows print unambiguously ----

  /** Rows whose strings hold no surrogate pair are reduced to rows that print unambiguously. */
  ghost predicate KeepsClear(fl: Floats, k: Kind) {
    forall row :: TidyMembers(row) && k.normalize(row).Some? ==> Clear(fl, Obj(k.normalize(row).value))
  }

  predicate TidyRows(values: seq<Json>) {
    forall i :: 0 <= i < |values| ==> Tidy(values[i])
  }

  lemma TidyRowsAreClear(fl: Floats, values: seq<Json>, k: Kind)
    requires TidyRows(values) && KeepsClear(fl, k)
    ensures ClearRows(fl, values, k)
  {
  }

  lemma {:induction false} RowsPrint(fl: Floats, rows: seq<Json>)
    requires forall i :: 0 <= i < |rows| ==> Clear(fl, rows[i])
    ensures PrintableElements(fl.repr, ToElements(rows))
  {
    if rows != [] {
      forall i | 0 <= i < |rows| - 1 ensures Clear(fl, rows[1..][i]) {
        assert rows[1..][i] == rows[i + 1];
      }
      RowsPrint(fl, rows[1..]);
    }
  }

  lemma CollectionPrints(fl: Floats, values: seq<Json>, k: Kind)
    requires ShowsIdentity(k) && Collectable(values, k) && ClearRows(fl, values, k)
    ensures forall i :: 0 <= i < |Collection(values, k)| ==> Clear(fl, Collection(values, k)[i])
    ensures AscendingBy(RowKey, Collection(values, k))
  {
    RowsAreDistinct(fl, values, k);
    SortIsSorted(RowKey, Rows(values, k));
    forall i | 0 <= i < |Collection(values, k)| ensures Clear(fl, Collection(values, k)[i]) {
      assert Collection(values, k)[i] in Rows(values, k);
    }
  }

  lemma OrderPrints(fl: Floats, row: Members, number: Numeral, legs: Elements)
    requires TidyMembers(row) && PlainNumbers(number) && PrintableElements(fl.repr, legs)
    ensures OrderWith(row, number, legs).Some? ==> Clear(fl, Obj(OrderWith(row, number, legs).value))
  {
    if OrderWith(row, number, legs).Some? {
      OrderIsPlain();
      ReducedPrints(fl.repr, row, ORDER, number);
      UnionPrints(fl.repr, Reduced(row, ORDER, number).value, Member(LEGS, Arr(legs), NoMembers));
      OrderShows(row, number, legs);
    }
  }

  lemma LeavesKeepClear(fl: Floats, number: Numeral)
    requires PlainNumbers(number)
    ensures KeepsClear(fl, LeafKind(number))
  {
    forall row | TidyMembers(row) && LeafKind(number).normalize(row).Some?
      ensures Clear(fl, Obj(LeafKind(number).normalize(row).value))
    {
      OrderPrints(fl, row, number, NoElements);
    }
  }

  lemma {:induction false} ListedTidy(es: Elements)
    requires TidyElements(es)
    ensures TidyRows(Listed(es))
  {
    if es.Element? {
      ListedTidy(es.tail);
    }
  }

  lemma LegsPrint(fl: Floats, row: Members, number: Numeral)
    requires TidyMembers(row) && PlainNumbers(number) && RootOrder(row, number).Some?
    ensures PrintableElements(fl.repr, LegsOf(row, number))
    ensures Field(row, LEGS).Arr? ==> ClearRows(fl, Listed(Field(row, LEGS).elements), LeafKind(number))
  {
    if Field(row, LEGS).Arr? {
      var legs := Listed(Field(row, LEGS).elements);
      FieldIsTidy(row, LEGS);
      ListedTidy(Field(row, LEGS).elements);
      LeavesShow(number);
      LeavesKeepClear(fl, number);
      TidyRowsAreClear(fl, legs, LeafKind(number));
      CollectionPrints(fl, legs, LeafKind(number));
      RowsPrint(fl, Collection(legs, LeafKind(number)));
    }
  }

  lemma RootPrints(fl: Floats, row: Members, number: Numeral)
    requires TidyMembers(row) && PlainNumbers(number) && RootOrder(row, number).Some?
    ensures Clear(fl, Obj(RootOrder(row, number).value))
  {
    LegsPrint(fl, row, number);
    OrderPrints(fl, row, number, LegsOf(row, number));
  }

  /** Every kind of row prints unambiguously if no string in the provider's row holds a surrogate pair; a row
      parsed from JSON never does. */
  lemma KindsKeepClear(fl: Floats, number: Numeral)
    requires PlainNumbers(number)
    ensures KeepsClear(fl, PositionKind(number)) && KeepsClear(fl, ActivityKind(number))
    ensures KeepsClear(fl, LeafKind(number)) && KeepsClear(fl, OrderKind(number))
  {
    PositionIsPlain();
    ActivityIsPlain();
    forall row | TidyMembers(row)
      ensures Reduced(row, POSITION, number).Some? ==> Clear(fl, Obj(Reduced(row, POSITION, number).value))
      ensures Reduced(row, ACTIVITY, number).Some? ==> Clear(fl, Obj(Reduced(row, ACTIVITY, number).value))
      ensures RootOrder(row, number).Some? ==> Clear(fl, Obj(RootOrder(row, number).value))
    {
      if Reduced(row, POSITION, number).Some? {
        ReducedPrints(fl.repr, row, POSITION, number);
      }
      if Reduced(row, ACTIVITY, number).Some? {
        ReducedPrints(fl.repr, row, ACTIVITY, number);
      }
      if RootOrder(row, number).Some? {
        RootPrints(fl, row, number);
      }
    }
    LeavesKeepClear(fl, number);
  }

  // ---- Orders and their legs together ----

  predicate SameLegs(v: Json, w: Json) {
    v == w || (v.Arr? && w.Arr? && multiset(Listed(v.elements)) == multiset(Listed(w.elements)))
  }

  /** The same order row, its legs perhaps listed in another order. */
  ghost predicate Relegged(x: Json, y: Json) {
    && x.Obj? && y.Obj? && CountMembers(x.members) == CountMembers(y.members)
    && (forall key :: key != LEGS ==> Field(x.members, key) == Field(y.members, key))
    && SameLegs(Field(x.members, LEGS), Field(y.members, LEGS))
  }

  lemma ReleggedAlike(fl: Floats, x: Json, y: Json, number: Numeral)
    requires Relegged(x, y) && Tidy(x) && PlainNumbers(number) && RowOk(x, OrderKind(number))
    ensures RowOk(y, OrderKind(number)) && RowOf(x, OrderKind(number)) == RowOf(y, OrderKind(number))
    ensures IdentityOf(x, OrderKind(number)) == IdentityOf(y, OrderKind(number))
  {
    OrderIsPlain();
    LegsIsNoField();
    ReducedAlike(x.members, y.members, ORDER, number);
    assert OrderKind(number).normalize(x.members) == RootOrder(x.members, number);
    if Field(x.members, LEGS) != Field(y.members, LEGS) {
      LegsPrint(fl, x.members, number);
      LegsForgetOrder(fl, x.members, y.members, number);
    }
    assert RootOrder(x.members, number) == RootOrder(y.members, number);
    assert OrderKind(number).normalize(y.members) == RootOrder(y.members, number);
  }

  /** Listings `a` and `b` of one set of orders, each order with its legs in some order, give one collection:
      `c` is `a` with the legs of each order as `b` lists them. */
  lemma OrdersForgetOrder(fl: Floats, a: seq<Json>, c: seq<Json>, b: seq<Json>, number: Numeral)
    requires PlainNumbers(number) && TidyRows(a) && Collectable(a, OrderKind(number))
    requires |a| == |c| && forall i :: 0 <= i < |a| ==> Relegged(a[i], c[i])
    requires multiset(c) == multiset(b)
    ensures Collectable(b, OrderKind(number)) && Collection(a, OrderKind(number)) == Collection(b, OrderKind(number))
  {
    var k := OrderKind(number);
    forall i | 0 <= i < |a|
      ensures RowOk(c[i], k) && RowOf(a[i], k) == RowOf(c[i], k) && IdentityOf(a[i], k) == IdentityOf(c[i], k)
    {
      ReleggedAlike(fl, a[i], c[i], number);
    }
    assert Collectable(c, k) && Rows(a, k) == Rows(c, k);
    KindsKeepClear(fl, number);
    TidyRowsAreClear(fl, a, k);
    OrdersShow(number);
    CollectionForgetsOrder(fl, c, b, k);
  }
}

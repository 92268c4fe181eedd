/** The digest of a captured account book: what two captures with one digest have in common. */
module BookDigest {
  import opened Common
  import opened Json
  import opened JsonRoundTrip
  import opened TextOrder
  import opened SortedBy
  import opened ArtifactJson
  import opened ArtifactPayload
  import opened ProviderBook
  import opened ProviderRows
  import Sorting

  const MAX_CAPTURE_BYTES: nat := 4 * 1024 * 1024

  /** The rows of a capture are collections: reduced, distinct, in the order of their canonical text. */
  datatype Capture = Capture(
    role: Text, fingerprint: Text, account: Json,
    positions: seq<Json>, orders: seq<Json>, activities: seq<Json>,
    sdkTrace: Json, httpTrace: Json, terminal: bool)

  const ROLE: Text := Ascii("role")
  const FINGERPRINT: Text := Ascii("account_fingerprint")
  const ACCOUNT: Text := Ascii("account")
  const POSITIONS: Text := Ascii("positions")
  const ORDERS: Text := Ascii("orders")
  const ACTIVITIES: Text := Ascii("activities")
  const SDK_TRACE: Text := Ascii("sdk_trace")
  const HTTP_TRACE: Text := Ascii("http_trace")
  const TERMINAL: Text := Ascii("pagination_terminal")

  function Rowed(rows: seq<Json>): Json {
    Arr(ToElements(rows))
  }

  /** The capture without its traces. */
  function Stable(c: Capture): Json {
    Obj(Member(ROLE, Str(c.role), Member(FINGERPRINT, Str(c.fingerprint), Member(ACCOUNT, c.account,
      Member(POSITIONS, Rowed(c.positions), Member(ORDERS, Rowed(c.orders),
        Member(ACTIVITIES, Rowed(c.activities), Member(TERMINAL, Bool(c.terminal), NoMembers))))))))
  }

  function CapturePayload(c: Capture): Json {
    Obj(Member(SDK_TRACE, c.sdkTrace, Member(HTTP_TRACE, c.httpTrace, Stable(c).members)))
  }

  /** None when the capture is too large. */
  function Digest(hash: Text -> int, c: Capture): Option<int> {
    if |Payload(CapturePayload(c))| > MAX_CAPTURE_BYTES then None else Some(hash(Payload(Stable(c))))
  }

  predicate Kept(fl: Floats, rows: seq<Json>) {
    && (forall i :: 0 <= i < |rows| ==> Clear(fl, rows[i]))
    && AscendingBy(RowKey, rows)
  }

  predicate KeptCapture(fl: Floats, c: Capture) {
    && Unpaired(c.role) && Unpaired(c.fingerprint) && Clear(fl, c.account)
    && Kept(fl, c.positions) && Kept(fl, c.orders) && Kept(fl, c.activities)
  }

  /** A collection is kept in the form that the digest relies on. */
  lemma CollectionIsKept(fl: Floats, values: seq<Json>, k: Kind)
    requires ShowsIdentity(k) && Collectable(values, k) && ClearRows(fl, values, k)
    ensures Kept(fl, Collection(values, k))
  {
    CollectionPrints(fl, values, k);
  }

  /** Whatever tidy rows a provider lists, as JSON gives them, their collections are kept in that form. */
  lemma TidyBookIsKept(fl: Floats, positions: seq<Json>, orders: seq<Json>, activities: seq<Json>, number: Numeral)
    requires PlainNumbers(number) && TidyRows(positions) && TidyRows(orders) && TidyRows(activities)
    requires Collectable(positions, PositionKind(number)) && Collectable(orders, OrderKind(number))
    requires Collectable(activities, ActivityKind(number))
    ensures Kept(fl, Collection(positions, PositionKind(number))) && Kept(fl, Collection(orders, OrderKind(number)))
    ensures Kept(fl, Collection(activities, ActivityKind(number)))
  {
    KindsShowIdentity(number);
    KindsKeepClear(fl, number);
    TidyRowsAreClear(fl, positions, PositionKind(number));
    TidyRowsAreClear(fl, orders, OrderKind(number));
    TidyRowsAreClear(fl, activities, ActivityKind(number));
    CollectionIsKept(fl, positions, PositionKind(number));
    CollectionIsKept(fl, orders, OrderKind(number));
    CollectionIsKept(fl, activities, ActivityKind(number));
  }

  // ---- What two captures share ----

  function FrozenRows(rows: seq<Json>): seq<Json> {
    if rows == [] then [] else [Frozen(rows[0])] + FrozenRows(rows[1..])
  }

  /** The same set of rows, each compared as a mapping. */
  ghost predicate SameRows(a: seq<Json>, b: seq<Json>) {
    Sorting.SameElements(FrozenRows(a), FrozenRows(b))
  }

  ghost predicate SameBook(a: Capture, b: Capture) {
    && a.role == b.role && a.fingerprint == b.fingerprint && a.terminal == b.terminal
    && Frozen(a.account) == Frozen(b.account)
    && SameRows(a.positions, b.positions) && SameRows(a.orders, b.orders) && SameRows(a.activities, b.activities)
  }

  lemma {:induction false} FrozenRowsAt(rows: seq<Json>)
    ensures |FrozenRows(rows)| == |rows|
    ensures forall i :: 0 <= i < |rows| ==> FrozenRows(rows)[i] == Frozen(rows[i])
  {
    if rows != [] {
      FrozenRowsAt(rows[1..]);
      forall i | 0 <= i < |rows| ensures FrozenRows(rows)[i] == Frozen(rows[i]) {
        assert i > 0 ==> rows[1..][i - 1] == rows[i];
      }
    }
  }

  function PrintKey(v: Json): Text {
    Emit(v, [10])
  }

  /** Kept rows are determined by their set. */
  lemma KeptDetermined(fl: Floats, a: seq<Json>, b: seq<Json>)
    requires Kept(fl, a) && Kept(fl, b)
    ensures SameRows(a, b) <==> FrozenRows(a) == FrozenRows(b)
  {
    FrozenRowsAt(a);
    FrozenRowsAt(b);
    assert AscendingBy(PrintKey, FrozenRows(a)) && AscendingBy(PrintKey, FrozenRows(b)) by {
      assert forall i :: 0 <= i < |a| ==> PrintKey(FrozenRows(a)[i]) == RowKey(a[i]);
      assert forall i :: 0 <= i < |b| ==> PrintKey(FrozenRows(b)[i]) == RowKey(b[i]);
    }
    if SameRows(a, b) {
      AscendingByDetermined(PrintKey, FrozenRows(a), FrozenRows(b));
    }
  }

  lemma {:induction false} RowedFrozen(a: seq<Json>, b: seq<Json>)
    ensures Frozen(Rowed(a)) == Frozen(Rowed(b)) <==> FrozenRows(a) == FrozenRows(b)
  {
    if a != [] && b != [] {
      RowedFrozen(a[1..], b[1..]);
      HeadAndTail(Frozen(a[0]), FrozenRows(a[1..]), Frozen(b[0]), FrozenRows(b[1..]));
    }
  }

  lemma HeadAndTail(x: Json, xs: seq<Json>, y: Json, ys: seq<Json>)
    ensures [x] + xs == [y] + ys <==> x == y && xs == ys
  {
    if [x] + xs == [y] + ys {
      assert ([x] + xs)[0] == x && ([y] + ys)[0] == y;
      assert ([x] + xs)[1..] == xs && ([y] + ys)[1..] == ys;
    }
  }

  // ---- The stable part, field by field ----

  datatype Fields = Fields(role: Json, fingerprint: Json, account: Json, positions: Json, orders: Json,
                           activities: Json, terminal: Json)

  function FieldsOf(c: Capture): Fields {
    Fields(Str(c.role), Str(c.fingerprint), Frozen(c.account), Frozen(Rowed(c.positions)),
           Frozen(Rowed(c.orders)), Frozen(Rowed(c.activities)), Bool(c.terminal))
  }

  function Tail(f: Fields): Members {
    Member(POSITIONS, f.positions, Member(ORDERS, f.orders,
      Member(ACTIVITIES, f.activities, Member(TERMINAL, f.terminal, NoMembers))))
  }

  function Laid(f: Fields): Members {
    Member(ROLE, f.role, Member(FINGERPRINT, f.fingerprint, Member(ACCOUNT, f.account, Tail(f))))
  }

  lemma FrozenTail(c: Capture)
    ensures FrozenMembers(Member(POSITIONS, Rowed(c.positions), Member(ORDERS, Rowed(c.orders),
              Member(ACTIVITIES, Rowed(c.activities), Member(TERMINAL, Bool(c.terminal), NoMembers))))) == Tail(FieldsOf(c))
  {
    var last := Member(TERMINAL, Bool(c.terminal), NoMembers);
    assert FrozenMembers(last) == last;
    var two := Member(ACTIVITIES, Rowed(c.activities), last);
    assert FrozenMembers(two) == Member(ACTIVITIES, Frozen(Rowed(c.activities)), last);
    var three := Member(ORDERS, Rowed(c.orders), two);
    assert FrozenMembers(three) == Member(ORDERS, Frozen(Rowed(c.orders)), FrozenMembers(two));
  }

  lemma FrozenStable(c: Capture)
    ensures FrozenMembers(Stable(c).members) == Laid(FieldsOf(c))
  {
    FrozenTail(c);
    var rest := Stable(c).members.rest;
    assert FrozenMembers(rest.rest) == Member(ACCOUNT, Frozen(c.account), Tail(FieldsOf(c)));
    assert FrozenMembers(rest) == Member(FINGERPRINT, Str(c.fingerprint), FrozenMembers(rest.rest));
  }

  lemma KeyTexts()
    ensures |ROLE| == 4 && |FINGERPRINT| == 19 && |ACCOUNT| == 7 && |POSITIONS| == 9 && |ORDERS| == 6
    ensures |ACTIVITIES| == 10 && |TERMINAL| == 19 && FINGERPRINT[0] == 97 && TERMINAL[0] == 112
    ensures Unpaired(ROLE) && Unpaired(FINGERPRINT) && Unpaired(ACCOUNT) && Unpaired(POSITIONS)
    ensures Unpaired(ORDERS) && Unpaired(ACTIVITIES) && Unpaired(TERMINAL)
  {
    AsciiIsPlain("role");
    AsciiIsPlain("account_fingerprint");
    AsciiIsPlain("account");
    AsciiIsPlain("positions");
    AsciiIsPlain("orders");
    AsciiIsPlain("activities");
    AsciiIsPlain("pagination_terminal");
  }

  lemma AsciiIsPlain(s: string)
    requires forall i :: 0 <= i < |s| ==> s[i] as int < 128
    ensures Unpaired(Ascii(s)) && |Ascii(s)| == |s|
  {
  }

  lemma TailDistinct(f: Fields)
    ensures DistinctKeys(Tail(f))
    ensures forall q :: Has(Tail(f), q) <==> q in [POSITIONS, ORDERS, ACTIVITIES, TERMINAL]
  {
    KeyTexts();
    var last := Member(TERMINAL, f.terminal, NoMembers);
    var two := Member(ACTIVITIES, f.activities, last);
    var three := Member(ORDERS, f.orders, two);
    assert forall q :: Has(last, q) <==> q == TERMINAL;
    assert forall q :: Has(two, q) <==> q in [ACTIVITIES, TERMINAL];
    assert forall q :: Has(three, q) <==> q in [ORDERS, ACTIVITIES, TERMINAL];
    assert DistinctKeys(last);
    assert DistinctKeys(two);
    assert DistinctKeys(three);
  }

  lemma LaidDistinct(f: Fields)
    ensures DistinctKeys(Laid(f))
  {
    KeyTexts();
    TailDistinct(f);
    var three := Member(ACCOUNT, f.account, Tail(f));
    var two := Member(FINGERPRINT, f.fingerprint, three);
    assert forall q :: Has(three, q) <==> q == ACCOUNT || Has(Tail(f), q);
    assert DistinctKeys(three);
    assert forall q :: Has(two, q) <==> q == FINGERPRINT || Has(three, q);
    assert DistinctKeys(two);
  }

  function KeysOf(ms: Members): seq<Text> {
    match ms
    case NoMembers => []
    case Member(k, _, rest) => [k] + KeysOf(rest)
  }

  /** Objects that list the same distinct keys in the same order and sort alike are the same. */
  lemma {:induction false} SortedAlike(a: Members, b: Members)
    requires KeysOf(a) == KeysOf(b) && DistinctKeys(a) && DistinctKeys(b)
    requires forall q :: Has(a, q) && Has(b, q) ==> Get(a, q) == Get(b, q)
    ensures a == b
  {
    if a.Member? {
      assert b.Member? && a.key == KeysOf(a)[0] == KeysOf(b)[0] == b.key;
      assert KeysOf(a)[1..] == KeysOf(a.rest) && KeysOf(b)[1..] == KeysOf(b.rest);
      assert Has(a, a.key) && Has(b, a.key);
      forall q | Has(a.rest, q) && Has(b.rest, q) ensures Get(a.rest, q) == Get(b.rest, q) {
        assert Has(a, q) && Has(b, q);
      }
      SortedAlike(a.rest, b.rest);
    }
  }

  lemma LaidKeys(f: Fields, g: Fields)
    ensures KeysOf(Laid(f)) == KeysOf(Laid(g))
  {
    assert KeysOf(Tail(f).rest.rest) == KeysOf(Tail(g).rest.rest);
    assert KeysOf(Tail(f)) == KeysOf(Tail(g));
    assert KeysOf(Laid(f).rest.rest) == KeysOf(Laid(g).rest.rest);
    assert KeysOf(Laid(f).rest) == KeysOf(Laid(g).rest);
  }

  lemma LaidAlike(f: Fields, g: Fields)
    ensures Sort(Laid(f)) == Sort(Laid(g)) <==> f == g
  {
    if Sort(Laid(f)) == Sort(Laid(g)) {
      LaidDistinct(f);
      LaidDistinct(g);
      LaidKeys(f, g);
      forall q | Has(Laid(f), q) && Has(Laid(g), q) ensures Get(Laid(f), q) == Get(Laid(g), q) {
        SortKeepsLookup(Laid(f), q);
        SortKeepsLookup(Laid(g), q);
      }
      SortedAlike(Laid(f), Laid(g));
    }
  }

  lemma StablePrints(fl: Floats, c: Capture)
    requires KeptCapture(fl, c)
    ensures Clear(fl, Stable(c))
  {
    KeyTexts();
    RowsPrint(fl, c.positions);
    RowsPrint(fl, c.orders);
    RowsPrint(fl, c.activities);
    var f := Fields(Str(c.role), Str(c.fingerprint), c.account, Rowed(c.positions), Rowed(c.orders),
                    Rowed(c.activities), Bool(c.terminal));
    LaidDistinct(f);
    var last := Member(TERMINAL, Bool(c.terminal), NoMembers);
    assert PrintableMembers(fl.repr, NoMembers);
    assert PrintableMembers(fl.repr, last);
    var two := Member(ACTIVITIES, Rowed(c.activities), last);
    assert PrintableMembers(fl.repr, two);
    var three := Member(ORDERS, Rowed(c.orders), two);
    assert PrintableMembers(fl.repr, three);
    var four := Member(POSITIONS, Rowed(c.positions), three);
    assert PrintableMembers(fl.repr, four);
    var five := Member(ACCOUNT, c.account, four);
    assert PrintableMembers(fl.repr, five);
    var six := Member(FINGERPRINT, Str(c.fingerprint), five);
    assert PrintableMembers(fl.repr, six);
    assert Laid(f) == Member(ROLE, Str(c.role), six) && Stable(c) == Obj(Laid(f));
    assert PrintableMembers(fl.repr, Laid(f));
  }

  lemma StableAlike(fl: Floats, a: Capture, b: Capture)
    requires KeptCapture(fl, a) && KeptCapture(fl, b)
    ensures Frozen(Stable(a)) == Frozen(Stable(b)) <==> SameBook(a, b)
  {
    FrozenStable(a);
    FrozenStable(b);
    LaidAlike(FieldsOf(a), FieldsOf(b));
    RowedFrozen(a.positions, b.positions);
    RowedFrozen(a.orders, b.orders);
    RowedFrozen(a.activities, b.activities);
    KeptDetermined(fl, a.positions, b.positions);
    KeptDetermined(fl, a.orders, b.orders);
    KeptDetermined(fl, a.activities, b.activities);
  }

  /** Two captures have one digest exactly when they show the same book: role, account, and the same sets
      of positions, orders and activities, whatever requests were made to read them. */
  lemma SameDigestExactly(fl: Floats, hash: Text -> int, a: Capture, b: Capture)
    requires Injective(hash) && KeptCapture(fl, a) && KeptCapture(fl, b)
    requires Digest(hash, a).Some? && Digest(hash, b).Some?
    ensures Digest(hash, a) == Digest(hash, b) <==> SameBook(a, b)
  {
    StablePrints(fl, a);
    StablePrints(fl, b);
    TextDetermines(fl, Stable(a), Stable(b));
    StableAlike(fl, a, b);
  }
}

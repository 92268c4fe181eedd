/** One provider row, reduced to the fields that the rehearsal records. */
module ProviderRows {
  import opened Common
  import opened Dictionaries
  import opened Json
  import opened JsonRoundTrip
  import opened ArtifactPayload
  import opened Surrogates

  const MAX_STRING: nat := 256

  /** How a provider number is rendered; None when it is refused. */
  type Numeral = Json -> Option<Text>

  /** The fields a row is reduced to: texts, which of them are required, numbers and flags. */
  datatype Shape = Shape(texts: seq<Text>, required: set<Text>, numbers: seq<Text>, flags: seq<Text>)

  function BoundedString(v: Json, required: bool): Option<Text> {
    if v == Null && !required then Some([])
    else
      var text := match v
        case Str(s) => Some(s)
        case Int(n) => Some(EmitInt(n, []))
        case _ => None;
      if text.Some? && (required ==> text.value != []) && |text.value| <= MAX_STRING then text else None
  }

  // ---- Reading fields ----

  /** What is recorded under a key; None when the row is refused. */
  type Read = Text -> Option<Json>

  function Texts(row: Members, required: set<Text>): Read {
    (key: Text) =>
      var text := BoundedString(Field(row, key), key in required);
      if text.Some? then Some(Str(text.value)) else None
  }

  function Numbers(row: Members, number: Numeral): Read {
    (key: Text) =>
      var v := Field(row, key);
      if v == Null then Some(Null) else if number(v).Some? then Some(Str(number(v).value)) else None
  }

  function Flags(row: Members): Read {
    (key: Text) =>
      var v := Field(row, key);
      if v.Bool? || v.Null? then Some(v) else None
  }

  /** `{key: read(key) for key in keys}`. */
  function Comprehension(keys: seq<Text>, read: Read): Option<Members> {
    if keys == [] then Some(NoMembers)
    else
      var key := keys[|keys| - 1];
      var front := Comprehension(keys[..|keys| - 1], read);
      if front.Some? && read(key).Some? then Some(Put(front.value, key, read(key).value)) else None
  }

  function Reduced(row: Members, shape: Shape, number: Numeral): Option<Members> {
    var texts := Comprehension(shape.texts, Texts(row, shape.required));
    var numbers := Comprehension(shape.numbers, Numbers(row, number));
    var flags := Comprehension(shape.flags, Flags(row));
    if texts.Some? && numbers.Some? && flags.Some? then Some(Union(Union(texts.value, numbers.value), flags.value))
    else None
  }

  lemma {:induction false} ComprehensionLookup(keys: seq<Text>, read: Read, q: Text)
    requires Comprehension(keys, read).Some?
    ensures q in keys ==> read(q).Some?
    ensures Lookup(Comprehension(keys, read).value, q) == if q in keys then read(q) else None
    ensures DistinctKeys(Comprehension(keys, read).value)
  {
    if keys != [] {
      var front, key := keys[..|keys| - 1], keys[|keys| - 1];
      ComprehensionLookup(front, read, q);
      PutLookup(Comprehension(front, read).value, key, read(key).value, q);
      assert keys == front + [key];
    }
  }

  lemma {:induction false} ComprehensionAlike(keys: seq<Text>, x: Read, y: Read)
    requires forall key :: key in keys ==> x(key) == y(key)
    ensures Comprehension(keys, x) == Comprehension(keys, y)
  {
    if keys != [] {
      var front, key := keys[..|keys| - 1], keys[|keys| - 1];
      assert keys == front + [key] && x(key) == y(key);
      ComprehensionAlike(front, x, y);
    }
  }

  /** Only the fields of the shape are looked at. */
  lemma ReducedAlike(x: Members, y: Members, shape: Shape, number: Numeral)
    requires forall key :: key in shape.texts + shape.numbers + shape.flags ==> Field(x, key) == Field(y, key)
    ensures Reduced(x, shape, number) == Reduced(y, shape, number)
  {
    ComprehensionAlike(shape.texts, Texts(x, shape.required), Texts(y, shape.required));
    ComprehensionAlike(shape.numbers, Numbers(x, number), Numbers(y, number));
    ComprehensionAlike(shape.flags, Flags(x), Flags(y));
  }

  /** A text field keeps its text, unless a number or a flag has the same key. */
  lemma ReducedText(row: Members, shape: Shape, number: Numeral, key: Text)
    requires Reduced(row, shape, number).Some? && key in shape.texts && key !in shape.numbers && key !in shape.flags
    ensures BoundedString(Field(row, key), key in shape.required).Some?
    ensures Lookup(Reduced(row, shape, number).value, key) ==
              Some(Str(BoundedString(Field(row, key), key in shape.required).value))
  {
    var texts := Comprehension(shape.texts, Texts(row, shape.required)).value;
    var numbers := Comprehension(shape.numbers, Numbers(row, number)).value;
    var flags := Comprehension(shape.flags, Flags(row)).value;
    ComprehensionLookup(shape.texts, Texts(row, shape.required), key);
    ComprehensionLookup(shape.numbers, Numbers(row, number), key);
    ComprehensionLookup(shape.flags, Flags(row), key);
    UnionLookup(texts, numbers, key);
    UnionLookup(Union(texts, numbers), flags, key);
  }

  lemma ReducedDistinct(row: Members, shape: Shape, number: Numeral)
    requires Reduced(row, shape, number).Some?
    ensures DistinctKeys(Reduced(row, shape, number).value)
  {
    var texts := Comprehension(shape.texts, Texts(row, shape.required)).value;
    var numbers := Comprehension(shape.numbers, Numbers(row, number)).value;
    var flags := Comprehension(shape.flags, Flags(row)).value;
    ComprehensionLookup(shape.texts, Texts(row, shape.required), []);
    ComprehensionLookup(shape.numbers, Numbers(row, number), []);
    ComprehensionLookup(shape.flags, Flags(row), []);
    UnionLookup(texts, numbers, []);
    UnionLookup(Union(texts, numbers), flags, []);
  }

  // ---- What the printer makes of a reduced row ----

  lemma {:induction false} PutPrints(fl: Repr, ms: Members, key: Text, value: Json)
    requires PrintableMembers(fl, ms) && Unpaired(key) && Printable(fl, value)
    ensures PrintableMembers(fl, Put(ms, key, value))
  {
    if ms.Member? && ms.key != key {
      PutPrints(fl, ms.rest, key, value);
    }
  }

  lemma {:induction false} UnionPrints(fl: Repr, a: Members, b: Members)
    requires PrintableMembers(fl, a) && PrintableMembers(fl, b)
    ensures PrintableMembers(fl, Union(a, b))
    decreases b
  {
    if b.Member? {
      PutPrints(fl, a, b.key, b.value);
      UnionPrints(fl, Put(a, b.key, b.value), b.rest);
    }
  }

  predicate Prints(fl: Repr, read: Read, key: Text) {
    Unpaired(key) && (read(key).Some? ==> Printable(fl, read(key).value))
  }

  lemma {:induction false} ComprehensionPrints(fl: Repr, keys: seq<Text>, read: Read)
    requires Comprehension(keys, read).Some? && forall key :: key in keys ==> Prints(fl, read, key)
    ensures PrintableMembers(fl, Comprehension(keys, read).value)
  {
    if keys != [] {
      var front, key := keys[..|keys| - 1], keys[|keys| - 1];
      assert keys == front + [key] && Prints(fl, read, key);
      ComprehensionPrints(fl, front, read);
      PutPrints(fl, Comprehension(front, read).value, key, read(key).value);
    }
  }

  lemma {:induction false} FieldIsTidy(row: Members, key: Text)
    requires TidyMembers(row)
    ensures Tidy(Field(row, key))
  {
    if row.Member? && row.key != key {
      FieldIsTidy(row.rest, key);
    }
  }

  lemma IntIsUnpaired(n: int)
    ensures Unpaired(EmitInt(n, []))
  {
    DigitsOf(if n < 0 then -n else n);
  }

  lemma BoundedIsUnpaired(v: Json, required: bool)
    requires Tidy(v)
    ensures BoundedString(v, required).Some? ==> Unpaired(BoundedString(v, required).value)
  {
    if v.Int? {
      IntIsUnpaired(v.n);
    }
  }

  /** Rendered numbers hold no surrogate pair, as ASCII digits do not. */
  ghost predicate PlainNumbers(number: Numeral) {
    forall v :: number(v).Some? ==> Unpaired(number(v).value)
  }

  predicate PlainKeys(keys: seq<Text>) {
    forall key :: key in keys ==> Unpaired(key)
  }

  predicate PlainShape(shape: Shape) {
    PlainKeys(shape.texts) && PlainKeys(shape.numbers) && PlainKeys(shape.flags)
  }

  /** A row whose strings hold no surrogate pair is reduced to one that the printer prints unambiguously. */
  lemma ReducedPrints(fl: Repr, row: Members, shape: Shape, number: Numeral)
    requires TidyMembers(row) && PlainNumbers(number) && PlainShape(shape) && Reduced(row, shape, number).Some?
    ensures Printable(fl, Obj(Reduced(row, shape, number).value))
  {
    var texts, numbers, flags := Texts(row, shape.required), Numbers(row, number), Flags(row);
    forall key ensures key in shape.texts ==> Prints(fl, texts, key)
      ensures key in shape.numbers ==> Prints(fl, numbers, key)
      ensures key in shape.flags ==> Prints(fl, flags, key)
    {
      FieldIsTidy(row, key);
      BoundedIsUnpaired(Field(row, key), key in shape.required);
    }
    var a, b, c := Comprehension(shape.texts, texts), Comprehension(shape.numbers, numbers), Comprehension(shape.flags, flags);
    ComprehensionPrints(fl, shape.texts, texts);
    ComprehensionPrints(fl, shape.numbers, numbers);
    ComprehensionPrints(fl, shape.flags, flags);
    UnionPrints(fl, a.value, b.value);
    UnionPrints(fl, Union(a.value, b.value), c.value);
    ReducedDistinct(row, shape, number);
  }

  // ---- The shapes ----

  function Names(names: seq<string>): seq<Text> {
    seq(|names|, i requires 0 <= i < |names| => Ascii(names[i]))
  }

  const ID: Text := Ascii("id")
  const ASSET_ID: Text := Ascii("asset_id")
  const LEGS: Text := Ascii("legs")

  const POSITION := Shape(
    [ASSET_ID] + Names(["symbol", "asset_class", "exchange", "side", "contract_type", "expiration_date"]),
    {ASSET_ID, Ascii("symbol")},
    Names(["qty", "qty_available", "avg_entry_price", "current_price", "market_value", "cost_basis", "unrealized_pl",
           "unrealized_plpc", "unrealized_intraday_pl", "unrealized_intraday_plpc", "lastday_price", "change_today",
           "strike_price", "multiplier", "avg_entry_swap_rate", "swap_rate"]),
    Names(["asset_marginable"]))

  const ACTIVITY := Shape(
    [ID] + Names(["account_id", "activity_type", "transaction_time", "date", "symbol", "side", "order_id",
                  "client_order_id", "type", "status", "order_status", "description"]),
    {ID, Ascii("activity_type")},
    Names(["qty", "price", "net_amount", "per_share_amount", "cum_qty", "leaves_qty"]),
    [])

  const ORDER := Shape(
    [ID] + Names(["client_order_id", "symbol", "asset_id", "asset_class", "status", "order_class", "type", "order_type",
                  "position_intent", "side", "time_in_force", "submitted_at", "created_at", "updated_at", "filled_at",
                  "expired_at", "canceled_at", "failed_at", "expires_at", "replaced_at", "replaced_by", "replaces"]),
    {ID},
    Names(["qty", "filled_qty", "limit_price", "stop_price", "filled_avg_price", "notional", "trail_price",
           "trail_percent", "ratio_qty", "hwm"]),
    Names(["extended_hours"]))

  lemma PositionIsPlain()
    ensures PlainShape(POSITION)
    ensures ASSET_ID in POSITION.texts && ASSET_ID !in POSITION.numbers && ASSET_ID !in POSITION.flags
  {
  }

  lemma ActivityIsPlain()
    ensures PlainShape(ACTIVITY)
    ensures ID in ACTIVITY.texts && ID !in ACTIVITY.numbers && ID !in ACTIVITY.flags
  {
  }

  lemma OrderIsPlain()
    ensures PlainShape(ORDER)
    ensures ID in ORDER.texts && ID !in ORDER.numbers && ID !in ORDER.flags && ID != LEGS && Unpaired(LEGS)
  {
  }

  lemma LegsIsNoField()
    ensures LEGS !in ORDER.texts && LEGS !in ORDER.numbers && LEGS !in ORDER.flags
  {
    assert |LEGS| == 4 && LEGS[0] == 108;
    assert forall key :: key in ORDER.texts ==> |key| != 4 || key[0] != 108;
    assert forall key :: key in ORDER.numbers ==> |key| != 4 || key[0] != 108;
    assert forall key :: key in ORDER.flags ==> |key| != 4;
  }
}

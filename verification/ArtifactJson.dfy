/** Canonical artifact payloads: the bounded freezer with its byte account, and the printed bytes. */
module ArtifactJson {
  import opened Common
  import opened Json
  import opened JsonRoundTrip
  import opened TextOrder

  const MAX_DEPTH: nat := 32
  const MAX_ITEMS: nat := 100_000
  const MAX_NUMERIC_BYTES: nat := 32 * 1024
  const MAX_ABS_NUMBER: int := 1_000_000_000_000_000_000
  const MAX_NUMBER_RENDER: nat := 64

  datatype Failure = BoundsExceeded | TooLarge | Invalid | ClaimForbidden

  /** How Python holds floats: which literal `repr` prints, and which pass the magnitude test. */
  datatype Floats = Floats(repr: Repr, inRange: FloatLit -> bool)

  // ---- What the freezer produces ----

  function Frozen(v: Json): Json
    decreases v
  {
    match v
    case Arr(es) => Arr(FrozenElements(es))
    case Obj(ms) => Obj(Sort(FrozenMembers(ms)))
    case _ => v
  }

  function FrozenElements(es: Elements): Elements
    decreases es
  {
    match es
    case NoElements => NoElements
    case Element(v, tail) => Element(Frozen(v), FrozenElements(tail))
  }

  function FrozenMembers(ms: Members): Members
    decreases ms
  {
    match ms
    case NoMembers => NoMembers
    case Member(k, v, rest) => Member(k, Frozen(v), FrozenMembers(rest))
  }

  // ---- What the freezer counts ----

  function BodySize(s: Text): nat {
    if s == [] then 0 else |Escape(s[0])| + BodySize(s[1..])
  }

  function QuotedSize(s: Text): nat {
    2 + BodySize(s)
  }

  function IntSize(n: int): nat {
    if n < 0 then 1 + |Digits(-n)| else |Digits(n)|
  }

  function FloatSize(f: FloatLit): nat {
    |EmitFloat(f, [])|
  }

  function Count(es: Elements): nat {
    if es.NoElements? then 0 else 1 + Count(es.tail)
  }

  function CountMembers(ms: Members): nat {
    if ms.NoMembers? then 0 else 1 + CountMembers(ms.rest)
  }

  /** Brackets and separators: `2 + max(len - 1, 0)`. */
  function Frame(n: nat): nat {
    2 + (if n > 1 then n - 1 else 0)
  }

  function Size(v: Json): nat
    decreases v
  {
    match v
    case Null => 4
    case Bool(b) => if b then 4 else 5
    case Str(s) => QuotedSize(s)
    case Int(n) => IntSize(n)
    case Float(f) => FloatSize(f)
    case Arr(es) => Frame(Count(es)) + SizeElements(es)
    case Obj(ms) => Frame(CountMembers(ms)) + SizeMembers(ms)
    case Unsupported => 0
  }

  function SizeElements(es: Elements): nat
    decreases es
  {
    if es.NoElements? then 0 else Size(es.head) + SizeElements(es.tail)
  }

  function SizeMembers(ms: Members): nat
    decreases ms
  {
    if ms.NoMembers? then 0 else 1 + QuotedSize(ms.key) + Size(ms.value) + SizeMembers(ms.rest)
  }

  function Items(v: Json): nat
    decreases v
  {
    1 + match v
        case Arr(es) => ItemsElements(es)
        case Obj(ms) => ItemsMembers(ms)
        case _ => 0
  }

  function ItemsElements(es: Elements): nat
    decreases es
  {
    if es.NoElements? then 0 else Items(es.head) + ItemsElements(es.tail)
  }

  function ItemsMembers(ms: Members): nat
    decreases ms
  {
    if ms.NoMembers? then 0 else Items(ms.value) + ItemsMembers(ms.rest)
  }

  function Numeric(v: Json): nat
    decreases v
  {
    match v
    case Int(n) => IntSize(n)
    case Float(f) => FloatSize(f)
    case Arr(es) => NumericElements(es)
    case Obj(ms) => NumericMembers(ms)
    case _ => 0
  }

  function NumericElements(es: Elements): nat
    decreases es
  {
    if es.NoElements? then 0 else Numeric(es.head) + NumericElements(es.tail)
  }

  function NumericMembers(ms: Members): nat
    decreases ms
  {
    if ms.NoMembers? then 0 else Numeric(ms.value) + NumericMembers(ms.rest)
  }

  // ---- What the freezer admits ----

  /** Every node is a supported value and lies no deeper than the bound. */
  predicate Admitted(fl: Floats, v: Json, depth: nat)
    decreases v
  {
    && depth <= MAX_DEPTH
    && match v
       case Str(s) => EncodableText(s)
       case Int(n) => -MAX_ABS_NUMBER <= n <= MAX_ABS_NUMBER && IntSize(n) <= MAX_NUMBER_RENDER
       case Float(f) => fl.inRange(f) && FloatSize(f) <= MAX_NUMBER_RENDER
       case Arr(es) => AdmittedElements(fl, es, depth + 1)
       case Obj(ms) => AdmittedMembers(fl, ms, depth + 1)
       case Unsupported => false
       case _ => true
  }

  predicate AdmittedElements(fl: Floats, es: Elements, depth: nat)
    decreases es
  {
    es.Element? ==> Admitted(fl, es.head, depth) && AdmittedElements(fl, es.tail, depth)
  }

  predicate AdmittedMembers(fl: Floats, ms: Members, depth: nat)
    decreases ms
  {
    ms.Member? ==>
      EncodableText(ms.key) && Admitted(fl, ms.value, depth) && AdmittedMembers(fl, ms.rest, depth)
  }

  /** `len(s.encode("utf-8"))`. */
  function Utf8Size(s: Text): nat {
    if s == [] then 0
    else (if s[0] < 0x80 then 1 else if s[0] < 0x800 then 2 else if s[0] < 0x10000 then 3 else 4) + Utf8Size(s[1..])
  }

  /** The separate test on the UTF-8 length never fires before the account would: the printed
      string is at least as long. */
  lemma {:induction false} Utf8FitsBody(s: Text)
    ensures Utf8Size(s) <= BodySize(s)
  {
    if s != [] {
      Utf8FitsBody(s[1..]);
    }
  }

  class Bounds {
    var items: nat
    var estimatedBytes: nat
    var numericBytes: nat

    constructor ()
      ensures items == 0 && estimatedBytes == 0 && numericBytes == 0
    {
      items, estimatedBytes, numericBytes := 0, 0, 0;
    }

    ghost predicate Within(byteLimit: nat)
      reads this
    {
      items <= MAX_ITEMS && numericBytes <= MAX_NUMERIC_BYTES && estimatedBytes <= byteLimit
    }

    /** There is room for this many more items, bytes and numeric bytes. */
    ghost predicate Room(byteLimit: nat, moreItems: nat, moreBytes: nat, moreNumeric: nat)
      reads this
    {
      && items + moreItems <= MAX_ITEMS
      && numericBytes + moreNumeric <= MAX_NUMERIC_BYTES
      && estimatedBytes + moreBytes <= byteLimit
    }

    method AddBytes(count: nat, numeric: bool, byteLimit: nat) returns (failure: Option<Failure>)
      modifies this
      ensures items == old(items) && estimatedBytes == old(estimatedBytes) + count
      ensures numericBytes == old(numericBytes) + (if numeric then count else 0)
      ensures failure.None? <==> numericBytes <= MAX_NUMERIC_BYTES && estimatedBytes <= byteLimit
    {
      estimatedBytes := estimatedBytes + count;
      if numeric {
        numericBytes := numericBytes + count;
      }
      if numericBytes > MAX_NUMERIC_BYTES {
        return Some(BoundsExceeded);
      }
      if estimatedBytes > byteLimit {
        return Some(TooLarge);
      }
      return None;
    }

    method Enter(depth: nat) returns (failure: Option<Failure>)
      modifies this
      ensures items == old(items) + 1 && estimatedBytes == old(estimatedBytes) && numericBytes == old(numericBytes)
      ensures failure.None? <==> items <= MAX_ITEMS && depth <= MAX_DEPTH
    {
      items := items + 1;
      if items > MAX_ITEMS || depth > MAX_DEPTH {
        return Some(BoundsExceeded);
      }
      return None;
    }
  }

  /** Freezing succeeds exactly when the value is admitted and there is room for all of it, and then
      the account has grown by exactly the size of the value. */
  method Freeze(fl: Floats, current: Json, depth: nat, byteLimit: nat, bounds: Bounds) returns (r: Result<Json, Failure>)
    requires bounds.Within(byteLimit)
    modifies bounds
    ensures r.Ok? <==>
              Admitted(fl, current, depth) &&
              old(bounds.Room(byteLimit, Items(current), Size(current), Numeric(current)))
    ensures r.Ok? ==> r.value == Frozen(current) && bounds.Within(byteLimit)
    ensures r.Ok? ==> bounds.items == old(bounds.items) + Items(current)
    ensures r.Ok? ==> bounds.estimatedBytes == old(bounds.estimatedBytes) + Size(current)
    ensures r.Ok? ==> bounds.numericBytes == old(bounds.numericBytes) + Numeric(current)
    decreases current
  {
    var failure := bounds.Enter(depth);
    if failure.Some? {
      return Err(failure.value);
    }
    match current {
      case Arr(es) =>
        failure := bounds.AddBytes(Frame(Count(es)), false, byteLimit);
        if failure.Some? {
          return Err(failure.value);
        }
        var frozen := FreezeElements(fl, es, depth + 1, byteLimit, bounds);
        if frozen.Err? {
          return Err(frozen.error);
        }
        return Ok(Arr(frozen.value));
      case Obj(ms) =>
        failure := bounds.AddBytes(Frame(CountMembers(ms)), false, byteLimit);
        if failure.Some? {
          return Err(failure.value);
        }
        var frozen := FreezeMembers(fl, ms, depth + 1, byteLimit, bounds);
        if frozen.Err? {
          return Err(frozen.error);
        }
        return Ok(Obj(Sort(frozen.value)));
      case Unsupported => return Err(Invalid);
      case Str(s) =>
        if !EncodableText(s) {
          return Err(Invalid);
        }
        Utf8FitsBody(s);
        if Utf8Size(s) > byteLimit {
          return Err(TooLarge);
        }
        failure := bounds.AddBytes(QuotedSize(s), false, byteLimit);
      case Int(n) =>
        if n < -MAX_ABS_NUMBER || n > MAX_ABS_NUMBER || IntSize(n) > MAX_NUMBER_RENDER {
          return Err(BoundsExceeded);
        }
        failure := bounds.AddBytes(IntSize(n), true, byteLimit);
      case Float(f) =>
        if !fl.inRange(f) || FloatSize(f) > MAX_NUMBER_RENDER {
          return Err(BoundsExceeded);
        }
        failure := bounds.AddBytes(FloatSize(f), true, byteLimit);
      case Null => failure := bounds.AddBytes(4, false, byteLimit);
      case Bool(b) => failure := bounds.AddBytes(if b then 4 else 5, false, byteLimit);
    }
    if failure.Some? {
      return Err(failure.value);
    }
    return Ok(current);
  }

  method FreezeElements(fl: Floats, es: Elements, depth: nat, byteLimit: nat, bounds: Bounds)
    returns (r: Result<Elements, Failure>)
    requires bounds.Within(byteLimit)
    modifies bounds
    ensures r.Ok? <==>
              AdmittedElements(fl, es, depth) &&
              old(bounds.Room(byteLimit, ItemsElements(es), SizeElements(es), NumericElements(es)))
    ensures r.Ok? ==> r.value == FrozenElements(es) && bounds.Within(byteLimit)
    ensures r.Ok? ==> bounds.items == old(bounds.items) + ItemsElements(es)
    ensures r.Ok? ==> bounds.estimatedBytes == old(bounds.estimatedBytes) + SizeElements(es)
    ensures r.Ok? ==> bounds.numericBytes == old(bounds.numericBytes) + NumericElements(es)
    decreases es
  {
    if es.NoElements? {
      return Ok(NoElements);
    }
    var head := Freeze(fl, es.head, depth, byteLimit, bounds);
    if head.Err? {
      return Err(head.error);
    }
    var tail := FreezeElements(fl, es.tail, depth, byteLimit, bounds);
    if tail.Err? {
      return Err(tail.error);
    }
    return Ok(Element(head.value, tail.value));
  }

  method FreezeMembers(fl: Floats, ms: Members, depth: nat, byteLimit: nat, bounds: Bounds)
    returns (r: Result<Members, Failure>)
    requires bounds.Within(byteLimit)
    modifies bounds
    ensures r.Ok? <==>
              AdmittedMembers(fl, ms, depth) &&
              old(bounds.Room(byteLimit, ItemsMembers(ms), SizeMembers(ms), NumericMembers(ms)))
    ensures r.Ok? ==> r.value == FrozenMembers(ms) && bounds.Within(byteLimit)
    ensures r.Ok? ==> bounds.items == old(bounds.items) + ItemsMembers(ms)
    ensures r.Ok? ==> bounds.estimatedBytes == old(bounds.estimatedBytes) + SizeMembers(ms)
    ensures r.Ok? ==> bounds.numericBytes == old(bounds.numericBytes) + NumericMembers(ms)
    decreases ms
  {
    if ms.NoMembers? {
      return Ok(NoMembers);
    }
    if !EncodableText(ms.key) {
      return Err(Invalid);
    }
    Utf8FitsBody(ms.key);
    if Utf8Size(ms.key) > byteLimit {
      return Err(TooLarge);
    }
    var failure := bounds.AddBytes(1 + QuotedSize(ms.key), false, byteLimit);
    if failure.Some? {
      return Err(failure.value);
    }
    var value := Freeze(fl, ms.value, depth, byteLimit, bounds);
    if value.Err? {
      return Err(value.error);
    }
    var rest := FreezeMembers(fl, ms.rest, depth, byteLimit, bounds);
    if rest.Err? {
      return Err(rest.error);
    }
    return Ok(Member(ms.key, value.value, rest.value));
  }
}

/** JSON values as Python holds them, the canonical ASCII text that `json.dumps` prints for them, and
    the parser of `json.loads` (RFC 8259).  Text is a sequence of code points. */
module Json {
  import opened Common

  type Text = seq<int>

  // ---- Values ----

  /** A float by its literal: sign, whole digits, fraction digits, and exponent with its sign.
      An empty fraction or exponent is absent. */
  datatype FloatLit = FloatLit(negative: bool, whole: Text, fraction: Text, exponent: Text)

  /** Objects keep insertion order.  `Unsupported` is every other Python value, including a mapping
      with a key that is not a string. */
  datatype Json =
    | Null
    | Bool(b: bool)
    | Str(s: Text)
    | Int(n: int)
    | Float(lit: FloatLit)
    | Arr(elements: Elements)
    | Obj(members: Members)
    | Unsupported

  datatype Elements = NoElements | Element(head: Json, tail: Elements)

  datatype Members = NoMembers | Member(key: Text, value: Json, rest: Members)

  predicate Has(ms: Members, key: Text) {
    ms.Member? && (ms.key == key || Has(ms.rest, key))
  }

  function Get(ms: Members, key: Text): (v: Json)
    requires Has(ms, key)
    ensures v < ms
  {
    if ms.key == key then ms.value else Get(ms.rest, key)
  }

  predicate DistinctKeys(ms: Members) {
    ms.Member? ==> !Has(ms.rest, ms.key) && DistinctKeys(ms.rest)
  }

  // ---- Strings ----

  /** `\uXXXX`, lower case. */
  function HexDigit(d: int): int {
    if d < 10 then 48 + d else 87 + d
  }

  function Hex4(u: int): Text {
    [92, 117, HexDigit(u / 4096), HexDigit(u / 256 % 16), HexDigit(u / 16 % 16), HexDigit(u % 16)]
  }

  predicate Encodable(c: int) {
    0 <= c < 0xD800 || 0xDFFF < c <= 0x10FFFF
  }

  /** `encode_basestring_ascii`, one character. */
  function Escape(c: int): Text {
    if c == 34 || c == 92 then [92, c]
    else if c == 10 then [92, 110]
    else if c == 13 then [92, 114]
    else if c == 9 then [92, 116]
    else if c == 12 then [92, 102]
    else if c == 8 then [92, 98]
    else if 32 <= c <= 126 then [c]
    else if c < 0x10000 then Hex4(c)
    else Hex4(0xD800 + (c - 0x10000) / 1024) + Hex4(0xDC00 + (c - 0x10000) % 1024)
  }

  /** The body of a string, its closing quote, then `rest`. */
  function EmitBody(s: Text, rest: Text): Text {
    if s == [] then [34] + rest else Escape(s[0]) + EmitBody(s[1..], rest)
  }

  function EmitString(s: Text, rest: Text): Text {
    [34] + EmitBody(s, rest)
  }

  // ---- Numbers ----

  function Digits(n: nat): Text {
    if n < 10 then [48 + n] else Digits(n / 10) + [48 + n % 10]
  }

  function EmitInt(n: int, rest: Text): Text {
    if n < 0 then [45] + (Digits(-n) + rest) else Digits(n) + rest
  }

  function EmitExponent(exponent: Text, rest: Text): Text {
    if exponent == [] then rest else [101] + (exponent + rest)
  }

  function EmitFraction(fraction: Text, rest: Text): Text {
    if fraction == [] then rest else [46] + (fraction + rest)
  }

  function EmitFloat(f: FloatLit, rest: Text): Text {
    var unsigned := f.whole + EmitFraction(f.fraction, EmitExponent(f.exponent, rest));
    if f.negative then [45] + unsigned else unsigned
  }

  // ---- Printing, with separators "," and ":" ----

  /** The text of `v` followed by `rest`.  Objects print in the order of their members. */
  function Emit(v: Json, rest: Text): Text
    decreases v
  {
    match v
    case Null => [110, 117, 108, 108] + rest
    case Bool(b) => (if b then [116, 114, 117, 101] else [102, 97, 108, 115, 101]) + rest
    case Str(s) => EmitString(s, rest)
    case Int(n) => EmitInt(n, rest)
    case Float(f) => EmitFloat(f, rest)
    case Arr(es) => [91] + EmitElements(es, rest)
    case Obj(ms) => [123] + EmitMembers(ms, rest)
    case Unsupported => rest
  }

  /** The elements, the closing bracket, then `rest`. */
  function EmitElements(es: Elements, rest: Text): Text
    decreases es
  {
    match es
    case NoElements => [93] + rest
    case Element(v, tail) =>
      Emit(v, if tail.NoElements? then [93] + rest else [44] + EmitElements(tail, rest))
  }

  /** The members, the closing brace, then `rest`. */
  function EmitMembers(ms: Members, rest: Text): Text
    decreases ms
  {
    match ms
    case NoMembers => [125] + rest
    case Member(k, v, more) =>
      EmitString(k, [58] + Emit(v, if more.NoMembers? then [125] + rest else [44] + EmitMembers(more, rest)))
  }

  // ---- Parsing ----

  predicate IsSpace(c: int) {
    c == 32 || c == 9 || c == 10 || c == 13
  }

  function SkipSpace(s: Text): (r: Text)
    ensures |r| <= |s|
    ensures r != [] ==> !IsSpace(r[0])
  {
    if s != [] && IsSpace(s[0]) then SkipSpace(s[1..]) else s
  }

  function HexValue(c: int): Option<int> {
    if 48 <= c <= 57 then Some(c - 48)
    else if 97 <= c <= 102 then Some(c - 87)
    else if 65 <= c <= 70 then Some(c - 55)
    else None
  }

  /** The code unit of a `\uXXXX` escape at the start of `s`. */
  function UnitAt(s: Text): Option<int> {
    if |s| >= 6 && s[0] == 92 && s[1] == 117 && HexValue(s[2]).Some? && HexValue(s[3]).Some? &&
       HexValue(s[4]).Some? && HexValue(s[5]).Some?
    then Some(HexValue(s[2]).value * 4096 + HexValue(s[3]).value * 256 + HexValue(s[4]).value * 16 + HexValue(s[5]).value)
    else None
  }

  function Unescape(c: int): Option<int> {
    if c == 34 || c == 92 || c == 47 then Some(c)
    else if c == 98 then Some(8)
    else if c == 102 then Some(12)
    else if c == 110 then Some(10)
    else if c == 114 then Some(13)
    else if c == 116 then Some(9)
    else None
  }

  /** One character of a string body and the number of code points it takes; a high surrogate escape
      followed by a low one is one character, and an unpaired one stands for itself. */
  function CharAt(s: Text): (r: Option<(int, nat)>)
    ensures r.Some? ==> 0 < r.value.1 <= |s|
  {
    if s == [] || s[0] == 34 || s[0] < 32 then None
    else if s[0] != 92 then Some((s[0], 1))
    else if |s| >= 2 && Unescape(s[1]).Some? then Some((Unescape(s[1]).value, 2))
    else
      match UnitAt(s)
      case None => None
      case Some(u) =>
        if 0xD800 <= u <= 0xDBFF && UnitAt(s[6..]).Some? && 0xDC00 <= UnitAt(s[6..]).value <= 0xDFFF
        then Some((0x10000 + (u - 0xD800) * 1024 + (UnitAt(s[6..]).value - 0xDC00), 12))
        else Some((u, 6))
  }

  /** The rest of a string after its opening quote. */
  function ParseBody(s: Text): (r: Option<(Text, Text)>)
    ensures r.Some? ==> |r.value.1| < |s|
    decreases |s|
  {
    if s != [] && s[0] == 34 then Some(([], s[1..]))
    else
      match CharAt(s)
      case None => None
      case Some((c, n)) =>
        match ParseBody(s[n..])
        case None => None
        case Some((body, rest)) => Some(([c] + body, rest))
  }

  predicate IsDigit(c: int) {
    48 <= c <= 57
  }

  function TakeDigits(s: Text): (r: (Text, Text))
    ensures r.0 + r.1 == s
    ensures r.1 != [] ==> !IsDigit(r.1[0])
  {
    if s != [] && IsDigit(s[0]) then ([s[0]] + TakeDigits(s[1..]).0, TakeDigits(s[1..]).1) else ([], s)
  }

  function ValueOf(digits: Text): int {
    if digits == [] then 0 else ValueOf(digits[..|digits| - 1]) * 10 + (digits[|digits| - 1] - 48)
  }

  /** `0`, or a nonzero digit and what follows it. */
  function TakeWhole(s: Text): (r: Option<(Text, Text)>)
    ensures r.Some? ==> |r.value.1| < |s|
  {
    if s == [] || !IsDigit(s[0]) then None
    else if s[0] == 48 then Some(([48], s[1..]))
    else Some(TakeDigits(s))
  }

  function TakeFraction(s: Text): (r: (Text, Text))
    ensures |r.1| <= |s|
  {
    if |s| >= 2 && s[0] == 46 && IsDigit(s[1]) then TakeDigits(s[1..]) else ([], s)
  }

  function TakeExponent(s: Text): (r: (Text, Text))
    ensures |r.1| <= |s|
  {
    if |s| >= 2 && (s[0] == 101 || s[0] == 69) then
      if IsDigit(s[1]) then TakeDigits(s[1..])
      else if |s| >= 3 && (s[1] == 43 || s[1] == 45) && IsDigit(s[2]) then ([s[1]] + TakeDigits(s[2..]).0, TakeDigits(s[2..]).1)
      else ([], s)
    else ([], s)
  }

  /** Which literal Python's `repr` gives for the float that a literal denotes. */
  type Repr = FloatLit -> FloatLit

  function ParseUnsigned(fl: Repr, negative: bool, s: Text): (r: Option<(Json, Text)>)
    ensures r.Some? ==> |r.value.1| < |s|
  {
    match TakeWhole(s)
    case None => None
    case Some((whole, afterWhole)) =>
      var (fraction, afterFraction) := TakeFraction(afterWhole);
      var (exponent, rest) := TakeExponent(afterFraction);
      if fraction == [] && exponent == [] then Some((Int(if negative then -ValueOf(whole) else ValueOf(whole)), rest))
      else Some((Float(fl(FloatLit(negative, whole, fraction, exponent))), rest))
  }

  function ParseNumber(fl: Repr, s: Text): (r: Option<(Json, Text)>)
    ensures r.Some? ==> |r.value.1| < |s|
  {
    if s != [] && s[0] == 45 then ParseUnsigned(fl, true, s[1..]) else ParseUnsigned(fl, false, s)
  }

  function ParseWord(s: Text): (r: Option<(Json, Text)>)
    ensures r.Some? ==> |r.value.1| < |s|
  {
    if [110, 117, 108, 108] <= s then Some((Null, s[4..]))
    else if [116, 114, 117, 101] <= s then Some((Bool(true), s[4..]))
    else if [102, 97, 108, 115, 101] <= s then Some((Bool(false), s[5..]))
    else None
  }

  function ParseValue(fl: Repr, s: Text): (r: Option<(Json, Text)>)
    ensures r.Some? ==> |r.value.1| < |s|
    decreases |s|, 1
  {
    if s == [] then None
    else if s[0] == 34 then
      match ParseBody(s[1..])
      case None => None
      case Some((body, rest)) => Some((Str(body), rest))
    else if s[0] == 123 then ParseBraces(fl, SkipSpace(s[1..]))
    else if s[0] == 91 then ParseBrackets(fl, SkipSpace(s[1..]))
    else if s[0] == 110 || s[0] == 116 || s[0] == 102 then ParseWord(s)
    else ParseNumber(fl, s)
  }

  /** An object after its opening brace and the space that follows. */
  function ParseBraces(fl: Repr, s: Text): (r: Option<(Json, Text)>)
    ensures r.Some? ==> |r.value.1| < |s|
    decreases |s|, 2
  {
    if s != [] && s[0] == 125 then Some((Obj(NoMembers), s[1..]))
    else
      match ParseMembers(fl, s)
      case None => None
      case Some((ms, rest)) => if DistinctKeys(ms) then Some((Obj(ms), rest)) else None
  }

  function ParseBrackets(fl: Repr, s: Text): (r: Option<(Json, Text)>)
    ensures r.Some? ==> |r.value.1| < |s|
    decreases |s|, 3
  {
    if s != [] && s[0] == 93 then Some((Arr(NoElements), s[1..]))
    else
      match ParseElements(fl, s)
      case None => None
      case Some((es, rest)) => Some((Arr(es), rest))
  }

  /** A key, its colon, and the space around the colon. */
  function ParseKey(s: Text): (r: Option<(Text, Text)>)
    ensures r.Some? ==> |r.value.1| < |s|
  {
    if s == [] || s[0] != 34 then None
    else
      match ParseBody(s[1..])
      case None => None
      case Some((key, afterKey)) =>
        var colon := SkipSpace(afterKey);
        if colon == [] || colon[0] != 58 then None else Some((key, SkipSpace(colon[1..])))
  }

  /** Members up to and including the closing brace; space before the first has been skipped. */
  function ParseMembers(fl: Repr, s: Text): (r: Option<(Members, Text)>)
    ensures r.Some? ==> |r.value.1| < |s|
    decreases |s|, 0
  {
    match ParseKey(s)
    case None => None
    case Some((key, afterKey)) =>
      match ParseValue(fl, afterKey)
      case None => None
      case Some((value, afterValue)) =>
        var next := SkipSpace(afterValue);
        if next == [] then None
        else if next[0] == 125 then Some((Member(key, value, NoMembers), next[1..]))
        else if next[0] != 44 then None
        else
          match ParseMembers(fl, SkipSpace(next[1..]))
          case None => None
          case Some((ms, rest)) => Some((Member(key, value, ms), rest))
  }

  function ParseElements(fl: Repr, s: Text): (r: Option<(Elements, Text)>)
    ensures r.Some? ==> |r.value.1| < |s|
    decreases |s|, 2
  {
    match ParseValue(fl, s)
    case None => None
    case Some((value, afterValue)) =>
      var next := SkipSpace(afterValue);
      if next == [] then None
      else if next[0] == 93 then Some((Element(value, NoElements), next[1..]))
      else if next[0] != 44 then None
      else
        match ParseElements(fl, SkipSpace(next[1..]))
        case None => None
        case Some((es, rest)) => Some((Element(value, es), rest))
  }

  /** `_json_object`: one object with distinct keys at every level, and nothing after it but space. */
  function ParseObject(fl: Repr, s: Text): Option<Members> {
    match ParseValue(fl, SkipSpace(s))
    case Some((Obj(ms), rest)) => if SkipSpace(rest) == [] then Some(ms) else None
    case _ => None
  }
}

/** Standard and adjusted option symbols: root, expiration, right and strike.

    `\d` matches every Unicode decimal digit, so the digits of a symbol are read through a table that
    extends the ASCII digits.  Printing what was read gives ASCII digits. */
module OptionSymbol {
  import opened Common
  import opened Json
  import opened DecimalDigits

  /** The value of a decimal digit; None for any other code point. */
  type DigitTable = int -> Option<nat>

  ghost predicate ExtendsAscii(table: DigitTable) {
    && (forall c :: 48 <= c <= 57 ==> table(c) == Some(c - 48))
    && (forall c :: table(c).Some? ==> table(c).value < 10)
    && (forall c :: 0 <= c < 128 && table(c).Some? ==> 48 <= c <= 57)
  }

  /** The strike is in thousandths. */
  datatype Contract = Contract(root: Text, year: nat, month: nat, day: nat, right: int, strike: nat) {
    predicate Adjusted()
      requires root != []
    {
      IsDigit(root[0]) || IsDigit(root[|root| - 1])
    }
  }

  datatype Failure = Malformed | NonStandard

  predicate IsLetter(c: int) {
    65 <= c <= 90
  }

  predicate Letters(s: Text) {
    forall i :: 0 <= i < |s| ==> IsLetter(s[i])
  }

  /** Up to six letters, or up to five with one digit before or after them. */
  predicate RootOk(root: Text) {
    1 <= |root| <= 6 && (
      || Letters(root)
      || (|root| >= 2 && Letters(root[..|root| - 1]) && IsDigit(root[|root| - 1]))
      || (|root| >= 2 && IsDigit(root[0]) && Letters(root[1..])))
  }

  predicate LeapYear(year: nat) {
    year % 4 == 0 && (year % 100 != 0 || year % 400 == 0)
  }

  function DaysIn(year: nat, month: nat): nat {
    if month == 2 then (if LeapYear(year) then 29 else 28)
    else if month in {4, 6, 9, 11} then 30
    else 31
  }

  predicate DateOk(year: nat, month: nat, day: nat) {
    1 <= month <= 12 && 1 <= day <= DaysIn(year, month)
  }

  /** Two-digit years lie between 1969 and 2068. */
  function FullYear(yy: nat): nat {
    if yy < 69 then 2000 + yy else 1900 + yy
  }

  /** The value of a run of digits; None when some code point is not a digit. */
  function Number(table: DigitTable, s: Text): Option<nat> {
    if s == [] then Some(0)
    else
      var init, last := Number(table, s[..|s| - 1]), table(s[|s| - 1]);
      if init.Some? && last.Some? then Some(init.value * 10 + last.value) else None
  }

  /** A symbol cut into its fields: 15 code points behind the root. */
  datatype Parts = Parts(root: Text, yy: Text, mm: Text, dd: Text, right: int, strike: Text)

  function Cut(s: Text): Parts
    requires |s| >= 15
  {
    var n := |s| - 15;
    Parts(s[..n], s[n..n + 2], s[n + 2..n + 4], s[n + 4..n + 6], s[n + 6], s[n + 7..])
  }

  function Read(table: DigitTable, p: Parts): Option<Contract> {
    var yy, mm, dd, strike := Number(table, p.yy), Number(table, p.mm), Number(table, p.dd), Number(table, p.strike);
    if RootOk(p.root) && (p.right == 67 || p.right == 80) && yy.Some? && mm.Some? && dd.Some? && strike.Some? &&
       DateOk(FullYear(yy.value), mm.value, dd.value)
    then Some(Contract(p.root, FullYear(yy.value), mm.value, dd.value, p.right, strike.value))
    else None
  }

  function Parse(table: DigitTable, s: Text): Option<Contract> {
    if |s| < 16 then None else Read(table, Cut(s))
  }

  // ---- Printing ----

  function Join(p: Parts): Text {
    p.root + (p.yy + (p.mm + (p.dd + ([p.right] + p.strike))))
  }

  function PartsOf(c: Contract): Parts {
    Parts(c.root, Padded(c.year % 100, 2), Padded(c.month, 2), Padded(c.day, 2), c.right, Padded(c.strike, 8))
  }

  function Render(c: Contract): Text {
    Join(PartsOf(c))
  }

  predicate WellFormed(c: Contract) {
    && RootOk(c.root) && 1969 <= c.year <= 2068 && DateOk(c.year, c.month, c.day)
    && (c.right == 67 || c.right == 80) && c.strike < 100_000_000
  }

  predicate AsciiText(s: Text) {
    forall i :: 0 <= i < |s| ==> 0 <= s[i] < 128
  }

  lemma {:induction false} PaddedReads(table: DigitTable, n: nat, width: nat)
    requires ExtendsAscii(table) && n < Power(width)
    ensures |Padded(n, width)| == width && AsciiText(Padded(n, width))
    ensures Number(table, Padded(n, width)) == Some(n)
  {
    if width > 0 {
      PaddedReads(table, n / 10, width - 1);
      assert Padded(n, width)[..width - 1] == Padded(n / 10, width - 1);
    }
  }

  /** A digit run reads back as itself exactly when it is written in ASCII. */
  lemma {:induction false} NumberPads(table: DigitTable, s: Text)
    requires ExtendsAscii(table) && Number(table, s).Some?
    ensures Number(table, s).value < Power(|s|)
    ensures Padded(Number(table, s).value, |s|) == s <==> AsciiText(s)
  {
    if s != [] {
      var init, last := s[..|s| - 1], s[|s| - 1];
      NumberPads(table, init);
      assert s == init + [last];
      var v := Number(table, s).value;
      assert v / 10 == Number(table, init).value && v % 10 == table(last).value;
      var padded := Padded(Number(table, init).value, |init|);
      PaddedLength(Number(table, init).value, |init|);
      assert Padded(v, |s|) == padded + [48 + v % 10];
      if padded + [48 + v % 10] == s {
        assert (padded + [48 + v % 10])[..|init|] == padded && s[..|init|] == init;
        assert s[|s| - 1] == 48 + v % 10;
      }
      if AsciiText(s) {
        assert AsciiText(init) && 0 <= last < 128;
      }
      if AsciiText(init) && 48 <= last <= 57 {
        assert AsciiText(s);
      }
    }
  }

  // ---- One contract, one ASCII symbol ----

  predicate Sized(p: Parts) {
    |p.yy| == 2 && |p.mm| == 2 && |p.dd| == 2 && |p.strike| == 8
  }

  predicate AsciiParts(p: Parts) {
    AsciiText(p.root) && AsciiText(p.yy) && AsciiText(p.mm) && AsciiText(p.dd) && 0 <= p.right < 128 && AsciiText(p.strike)
  }

  lemma Drop(a: Text, b: Text)
    ensures (a + b)[..|a|] == a && (a + b)[|a|..] == b
  {
  }

  lemma DropMore(s: Text, m: nat, n: nat)
    requires m + n <= |s|
    ensures s[m..][n..] == s[m + n..] && s[m..][..n] == s[m..m + n]
  {
  }

  lemma JoinCuts(p: Parts)
    requires Sized(p)
    ensures |Join(p)| == |p.root| + 15 && Cut(Join(p)) == p
  {
    var s, n := Join(p), |p.root|;
    var five := [p.right] + p.strike;
    var four := p.dd + five;
    var three := p.mm + four;
    var two := p.yy + three;
    Drop(p.root, two);
    Drop(p.yy, three);
    Drop(p.mm, four);
    Drop(p.dd, five);
    Drop([p.right], p.strike);
    DropMore(s, n, 2);
    DropMore(s, n + 2, 2);
    DropMore(s, n + 4, 2);
    DropMore(s, n + 6, 1);
  }

  lemma CutJoins(s: Text)
    requires |s| >= 15
    ensures Join(Cut(s)) == s && Sized(Cut(s))
  {
    var n := |s| - 15;
    assert s[n + 6..] == [s[n + 6]] + s[n + 7..];
    assert s[n + 4..] == s[n + 4..n + 6] + s[n + 6..];
    assert s[n + 2..] == s[n + 2..n + 4] + s[n + 4..];
    assert s[n..] == s[n..n + 2] + s[n + 2..];
    assert s == s[..n] + s[n..];
  }

  lemma AsciiJoin(a: Text, b: Text)
    ensures AsciiText(a + b) <==> AsciiText(a) && AsciiText(b)
  {
    if AsciiText(a + b) {
      assert forall i :: 0 <= i < |a| ==> (a + b)[i] == a[i];
      assert forall i :: 0 <= i < |b| ==> (a + b)[|a| + i] == b[i];
    }
  }

  lemma AsciiIsPartwise(p: Parts)
    ensures AsciiText(Join(p)) <==> AsciiParts(p)
  {
    AsciiJoin([p.right], p.strike);
    AsciiJoin(p.dd, [p.right] + p.strike);
    AsciiJoin(p.mm, p.dd + ([p.right] + p.strike));
    AsciiJoin(p.yy, p.mm + (p.dd + ([p.right] + p.strike)));
    AsciiJoin(p.root, p.yy + (p.mm + (p.dd + ([p.right] + p.strike))));
    assert [p.right][0] == p.right;
  }

  lemma RootIsAscii(root: Text)
    requires RootOk(root)
    ensures AsciiText(root)
  {
    forall i | 0 <= i < |root| ensures 0 <= root[i] < 128 {
      if |root| >= 2 && i < |root| - 1 {
        assert root[i] == root[..|root| - 1][i];
      }
      if |root| >= 2 && i > 0 {
        assert root[i] == root[1..][i - 1];
      }
    }
  }

  lemma YearKept(yy: nat)
    requires yy < 100
    ensures 1969 <= FullYear(yy) <= 2068 && FullYear(yy) % 100 == yy
  {
  }

  lemma ReadIsWellFormed(table: DigitTable, p: Parts)
    requires ExtendsAscii(table) && Sized(p) && Read(table, p).Some?
    ensures WellFormed(Read(table, p).value)
  {
    Powers();
    NumberPads(table, p.yy);
    NumberPads(table, p.strike);
    YearKept(Number(table, p.yy).value);
  }

  /** The parts agree when each printed field does. */
  lemma FieldsMatch(c: Contract, p: Parts)
    requires c.root == p.root && c.right == p.right && AsciiText(p.root) && 0 <= p.right < 128
    requires Padded(c.year % 100, 2) == p.yy <==> AsciiText(p.yy)
    requires Padded(c.month, 2) == p.mm <==> AsciiText(p.mm)
    requires Padded(c.day, 2) == p.dd <==> AsciiText(p.dd)
    requires Padded(c.strike, 8) == p.strike <==> AsciiText(p.strike)
    ensures PartsOf(c) == p <==> AsciiParts(p)
  {
  }

  lemma FieldPads(table: DigitTable, s: Text, width: nat, v: nat)
    requires ExtendsAscii(table) && |s| == width && Number(table, s) == Some(v)
    ensures v < Power(width) && (Padded(v, width) == s <==> AsciiText(s))
  {
    NumberPads(table, s);
  }

  /** Printing the fields of what was read gives the parts back exactly when they are ASCII. */
  lemma ReadExactly(table: DigitTable, p: Parts)
    requires ExtendsAscii(table) && Sized(p) && Read(table, p).Some?
    ensures PartsOf(Read(table, p).value) == p <==> AsciiParts(p)
  {
    var c := Read(table, p).value;
    var yy := Number(table, p.yy).value;
    Powers();
    FieldPads(table, p.yy, 2, yy);
    YearKept(yy);
    FieldPads(table, p.mm, 2, c.month);
    FieldPads(table, p.dd, 2, c.day);
    FieldPads(table, p.strike, 8, c.strike);
    RootIsAscii(p.root);
    FieldsMatch(c, p);
  }

  lemma PartsSized(c: Contract)
    ensures Sized(PartsOf(c))
  {
    PaddedLength(c.year % 100, 2);
    PaddedLength(c.month, 2);
    PaddedLength(c.day, 2);
    PaddedLength(c.strike, 8);
  }

  /** Printing what was read gives the symbol back exactly when the symbol is ASCII. */
  lemma RenderRestoresExactly(table: DigitTable, s: Text)
    requires ExtendsAscii(table) && Parse(table, s).Some?
    ensures WellFormed(Parse(table, s).value)
    ensures Render(Parse(table, s).value) == s <==> AsciiText(s)
  {
    var c, p := Parse(table, s).value, Cut(s);
    CutJoins(s);
    ReadIsWellFormed(table, p);
    ReadExactly(table, p);
    AsciiIsPartwise(p);
    PartsSized(c);
    JoinCuts(PartsOf(c));
  }

  lemma PadsRead(table: DigitTable, n: nat, width: nat, limit: nat)
    requires ExtendsAscii(table) && n < limit == Power(width)
    ensures Number(table, Padded(n, width)) == Some(n)
  {
    PaddedReads(table, n, width);
  }

  lemma YearRestored(year: nat)
    requires 1969 <= year <= 2068
    ensures FullYear(year % 100) == year
  {
  }

  lemma ReadRestores(table: DigitTable, c: Contract)
    requires ExtendsAscii(table) && WellFormed(c)
    ensures Read(table, PartsOf(c)) == Some(c)
  {
    Powers();
    PadsRead(table, c.year % 100, 2, 100);
    PadsRead(table, c.month, 2, 100);
    PadsRead(table, c.day, 2, 100);
    PadsRead(table, c.strike, 8, 100_000_000);
    YearRestored(c.year);
  }

  /** Reading a printed contract gives it back. */
  lemma ParseRestores(table: DigitTable, c: Contract)
    requires ExtendsAscii(table) && WellFormed(c)
    ensures Parse(table, Render(c)) == Some(c)
  {
    ReadRestores(table, c);
    PartsSized(c);
    JoinCuts(PartsOf(c));
  }

  /** An ASCII symbol is the only ASCII symbol of its contract. */
  lemma OneSymbolPerContract(table: DigitTable, s: Text, t: Text)
    requires ExtendsAscii(table) && AsciiText(s) && AsciiText(t)
    requires Parse(table, s).Some? && Parse(table, s) == Parse(table, t)
    ensures s == t
  {
    RenderRestoresExactly(table, s);
    RenderRestoresExactly(table, t);
  }

  lemma ForeignStrike(table: DigitTable, v: nat, c: int) returns (foreign: Text)
    requires ExtendsAscii(table) && table(c) == Some(v) && !(0 <= c < 128)
    ensures |foreign| == 8 && foreign != Padded(v, 8)
    ensures Number(table, foreign) == Number(table, Padded(v, 8))
  {
    var init := Padded(v / 10, 7);
    PaddedLength(v / 10, 7);
    foreign := init + [c];
    assert Padded(v, 8) == init + [48 + v % 10];
    assert foreign[..7] == init && (init + [48 + v % 10])[..7] == init;
    assert foreign[7] == c && (init + [48 + v % 10])[7] == 48 + v % 10;
  }

  lemma StrikeReplaced(table: DigitTable, p: Parts, foreign: Text)
    requires Number(table, foreign) == Number(table, p.strike)
    ensures Read(table, p.(strike := foreign)) == Read(table, p)
  {
  }

  lemma ParseOfJoin(table: DigitTable, p: Parts)
    requires Sized(p) && p.root != []
    ensures Parse(table, Join(p)) == Read(table, p)
  {
    JoinCuts(p);
  }

  /** Any digit outside ASCII gives a second symbol for some standard contract. */
  lemma ForeignDigitsCollide(table: DigitTable, c: int) returns (contract: Contract, s: Text, t: Text)
    requires ExtendsAscii(table) && table(c).Some? && !(0 <= c < 128)
    ensures WellFormed(contract) && Letters(contract.root)
    ensures s != t && Parse(table, s) == Some(contract) && Parse(table, t) == Some(contract)
  {
    contract := Contract([65], 2024, 1, 5, 67, table(c).value);
    var foreign := ForeignStrike(table, contract.strike, c);
    var p := PartsOf(contract);
    PartsSized(contract);
    ReadRestores(table, contract);
    StrikeReplaced(table, p, foreign);
    ParseOfJoin(table, p);
    ParseOfJoin(table, p.(strike := foreign));
    JoinCuts(p);
    JoinCuts(p.(strike := foreign));
    return contract, Join(p), Join(p.(strike := foreign));
  }

  // ---- Requiring a standard contract ----

  function RequireStandard(c: Contract, underlying: Option<Text>): Result<Contract, Failure>
    requires c.root != []
  {
    if c.Adjusted() then Err(NonStandard)
    else if underlying.Some? && c.root != underlying.value then Err(Malformed)
    else Ok(c)
  }

  /** A contract is standard exactly when its root has no digit; a root has at most one. */
  lemma StandardMeansLetters(c: Contract, underlying: Option<Text>)
    requires WellFormed(c)
    ensures RequireStandard(c, underlying).Ok? <==> Letters(c.root) && (underlying == None || underlying == Some(c.root))
    ensures RequireStandard(c, underlying) == Err(NonStandard) <==> !Letters(c.root)
  {
    if Letters(c.root) {
      assert IsLetter(c.root[0]) && IsLetter(c.root[|c.root| - 1]);
    }
  }
}

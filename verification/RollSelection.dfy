/** Selecting the expirations a package can be rolled to from an option chain. */
module RollSelection {
  import opened Common
  import opened Json
  import opened OptionSymbol
  import opened Sorting

  const MAX_CANDIDATES: nat := 8
  const SYNCHRONY := 5

  /** One chain entry.  `evidenceOk` stands for the checks on its contract, sizes, greeks and quote age;
      `snapshotMatches` says that the snapshot is the symbol's own. */
  datatype Listing = Listing(symbol: Text, snapshotMatches: bool, evidenceOk: bool, bid: real, ask: real, quoteAt: int)

  datatype Failure =
    StructureInvalid | EvidenceInvalid | NonStandardUnsupported | ContractEvidenceInvalid | NotSynchronized

  /** `inWindow` says which expirations lie between seven and thirty-five days after the current one;
      `contracts` gives the symbols for which the contract source has a record, when asked for some. */
  datatype Context = Context(
    underlying: Text, right: int, strikes: seq<nat>, inWindow: nat -> bool, maximumSpread: real,
    contracts: seq<Text> -> set<Text>)

  /** A calendar date as one number, in calendar order. */
  function DateCode(c: Contract): nat {
    c.year * 10_000 + c.month * 100 + c.day
  }

  /** An expiration and a strike. */
  datatype Slot = Slot(expiry: nat, strike: nat)

  // ---- Reading symbols ----

  /** A symbol reader, such as parsing with a digit table. */
  type Reader = Text -> Option<Contract>

  predicate SoundAt(read: Reader, s: Text, t: Text) {
    && (read(s).Some? ==> WellFormed(read(s).value))
    && (AsciiText(s) && AsciiText(t) && read(s).Some? && read(s) == read(t) ==> s == t)
  }

  /** It reads well-formed contracts, and two ASCII symbols never give the same one. */
  ghost predicate Sound(read: Reader) {
    forall s, t :: SoundAt(read, s, t)
  }

  function ParseWith(table: DigitTable): Reader {
    (s: Text) => Parse(table, s)
  }

  lemma ParsingIsSound(table: DigitTable)
    requires ExtendsAscii(table)
    ensures Sound(ParseWith(table))
  {
    var read := ParseWith(table);
    forall s, t ensures SoundAt(read, s, t) {
      assert read(s) == Parse(table, s) && read(t) == Parse(table, t);
      if Parse(table, s).Some? {
        RenderRestoresExactly(table, s);
        if AsciiText(s) && AsciiText(t) && Parse(table, s) == Parse(table, t) {
          OneSymbolPerContract(table, s, t);
        }
      }
    }
  }

  // ---- Grouping the chain ----

  predicate Eligible(ctx: Context, c: Contract) {
    c.root == ctx.underlying && c.right == ctx.right && c.strike in ctx.strikes && ctx.inWindow(DateCode(c))
  }

  /** Where a listing is filed: only a standard contract of the package has a slot. */
  function SlotOf(read: Reader, ctx: Context, l: Listing): Option<Slot> {
    var c := read(l.symbol);
    if c.Some? && Letters(c.value.root) && Eligible(ctx, c.value) then Some(Slot(DateCode(c.value), c.value.strike))
    else None
  }

  predicate Fits(read: Reader, ctx: Context, l: Listing, slot: Slot) {
    SlotOf(read, ctx, l) == Some(slot)
  }

  predicate Readable(read: Reader, ctx: Context, l: Listing) {
    var c := read(l.symbol);
    c.Some? && (Letters(c.value.root) && Eligible(ctx, c.value) ==> l.snapshotMatches)
  }

  predicate IsAdjusted(read: Reader, l: Listing) {
    read(l.symbol).Some? && !Letters(read(l.symbol).value.root)
  }

  type Groups = map<Slot, Listing>

  /** The chain filed from left to right: a later listing takes the place of an earlier one. */
  function Filed(read: Reader, ctx: Context, chain: seq<Listing>): Groups {
    if chain == [] then map[]
    else
      var g, l := Filed(read, ctx, chain[..|chain| - 1]), chain[|chain| - 1];
      match SlotOf(read, ctx, l)
      case None => g
      case Some(slot) => g[slot := l]
  }

  lemma FiledOneMore(read: Reader, ctx: Context, chain: seq<Listing>, l: Listing)
    ensures SlotOf(read, ctx, l) == None ==> Filed(read, ctx, chain + [l]) == Filed(read, ctx, chain)
    ensures forall slot :: Fits(read, ctx, l, slot) ==> Filed(read, ctx, chain + [l]) == Filed(read, ctx, chain)[slot := l]
  {
    assert (chain + [l])[..|chain|] == chain;
  }

  /** Entry `i` is the last of the chain that fits the slot. */
  predicate LastFitting(read: Reader, ctx: Context, chain: seq<Listing>, slot: Slot, i: int) {
    0 <= i < |chain| && Fits(read, ctx, chain[i], slot) && forall j :: i < j < |chain| ==> !Fits(read, ctx, chain[j], slot)
  }

  /** What is filed under a slot is the last listing of the chain that fits it. */
  lemma {:induction false} LastFittingIsFiled(read: Reader, ctx: Context, chain: seq<Listing>, slot: Slot)
    ensures slot !in Filed(read, ctx, chain) <==> forall l :: l in chain ==> !Fits(read, ctx, l, slot)
    ensures slot in Filed(read, ctx, chain) ==>
              exists i :: LastFitting(read, ctx, chain, slot, i) && Filed(read, ctx, chain)[slot] == chain[i]
  {
    if chain != [] {
      var n := |chain| - 1;
      var init, last := chain[..n], chain[n];
      LastFittingIsFiled(read, ctx, init, slot);
      assert chain == init + [last];
      if Fits(read, ctx, last, slot) {
        assert LastFitting(read, ctx, chain, slot, n);
      } else if slot in Filed(read, ctx, init) {
        var i :| LastFitting(read, ctx, init, slot, i) && Filed(read, ctx, init)[slot] == init[i];
        assert LastFitting(read, ctx, chain, slot, i);
      }
    }
  }

  /** Each slot holds a listing that fits it, and every listing that fits has its slot filled. */
  ghost predicate GroupsOf(read: Reader, ctx: Context, chain: seq<Listing>, g: Groups) {
    && (forall slot :: slot in g ==> g[slot] in chain && Fits(read, ctx, g[slot], slot))
    && (forall l, slot :: l in chain && Fits(read, ctx, l, slot) ==> slot in g)
  }

  lemma FiledIsGrouped(read: Reader, ctx: Context, chain: seq<Listing>)
    ensures GroupsOf(read, ctx, chain, Filed(read, ctx, chain))
  {
    var g := Filed(read, ctx, chain);
    forall slot ensures slot in g ==> g[slot] in chain && Fits(read, ctx, g[slot], slot)
      ensures slot !in g ==> forall l :: l in chain ==> !Fits(read, ctx, l, slot)
    {
      LastFittingIsFiled(read, ctx, chain, slot);
    }
  }

  ghost predicate SawAdjusted(read: Reader, chain: seq<Listing>) {
    exists l :: l in chain && IsAdjusted(read, l)
  }

  lemma AdjustedGrows(read: Reader, chain: seq<Listing>, l: Listing)
    ensures SawAdjusted(read, chain + [l]) <==> SawAdjusted(read, chain) || IsAdjusted(read, l)
  {
    if SawAdjusted(read, chain) {
      var x :| x in chain && IsAdjusted(read, x);
      assert x in chain + [l];
    }
    assert l in chain + [l];
  }

  /** Accepts exactly the chains it can read; adjusted listings are passed over and remembered. */
  method Group(read: Reader, ctx: Context, chain: seq<Listing>) returns (r: Result<(Groups, bool), Failure>)
    requires Sound(read)
    ensures r.Ok? <==> forall l :: l in chain ==> Readable(read, ctx, l)
    ensures r.Ok? ==> r.value.0 == Filed(read, ctx, chain)
    ensures r.Ok? ==> (r.value.1 <==> SawAdjusted(read, chain))
  {
    var g: Groups, adjusted := map[], false;
    for i := 0 to |chain|
      invariant forall l :: l in chain[..i] ==> Readable(read, ctx, l)
      invariant g == Filed(read, ctx, chain[..i])
      invariant adjusted <==> SawAdjusted(read, chain[..i])
    {
      var l := chain[i];
      assert l in chain && chain[..i + 1] == chain[..i] + [l];
      var parsed := read(l.symbol);
      if parsed == None {
        assert !Readable(read, ctx, l);
        return Err(StructureInvalid);
      }
      var c := parsed.value;
      assert SoundAt(read, l.symbol, l.symbol);
      StandardMeansLetters(c, None);
      AdjustedGrows(read, chain[..i], l);
      FiledOneMore(read, ctx, chain[..i], l);
      if RequireStandard(c, None).Err? {
        adjusted := true;
      } else if Eligible(ctx, c) {
        if !l.snapshotMatches {
          assert !Readable(read, ctx, l);
          return Err(EvidenceInvalid);
        }
        assert Fits(read, ctx, l, Slot(DateCode(c), c.strike));
        g := g[Slot(DateCode(c), c.strike) := l];
      }
    }
    assert chain[..|chain|] == chain;
    return Ok((g, adjusted));
  }

  lemma DateCodeKeeps(a: Contract, b: Contract)
    requires WellFormed(a) && WellFormed(b) && DateCode(a) == DateCode(b)
    ensures a.year == b.year && a.month == b.month && a.day == b.day
  {
  }

  /** One ASCII symbol fits a slot, whatever the chain. */
  lemma OneSymbolFits(read: Reader, ctx: Context, a: Listing, b: Listing, slot: Slot)
    requires Sound(read) && AsciiText(a.symbol) && AsciiText(b.symbol)
    requires Fits(read, ctx, a, slot) && Fits(read, ctx, b, slot)
    ensures a.symbol == b.symbol
  {
    assert SoundAt(read, a.symbol, b.symbol) && SoundAt(read, b.symbol, a.symbol);
    DateCodeKeeps(read(a.symbol).value, read(b.symbol).value);
  }

  ghost predicate AsciiChain(chain: seq<Listing>) {
    && (forall l :: l in chain ==> AsciiText(l.symbol))
    && (forall a, b :: a in chain && b in chain && a.symbol == b.symbol ==> a == b)
  }

  /** No two different listings of the chain fit one slot. */
  ghost predicate SlotUnique(read: Reader, ctx: Context, chain: seq<Listing>) {
    forall a, b, slot :: a in chain && b in chain && Fits(read, ctx, a, slot) && Fits(read, ctx, b, slot) ==> a == b
  }

  lemma AsciiIsUnique(read: Reader, ctx: Context, chain: seq<Listing>)
    requires Sound(read) && AsciiChain(chain)
    ensures SlotUnique(read, ctx, chain)
  {
    forall a, b, slot | a in chain && b in chain && Fits(read, ctx, a, slot) && Fits(read, ctx, b, slot) ensures a == b {
      OneSymbolFits(read, ctx, a, b, slot);
    }
  }

  /** The groups of a chain with unique slots do not depend on its order. */
  lemma GroupsForgetOrder(read: Reader, ctx: Context, a: seq<Listing>, b: seq<Listing>, g: Groups, h: Groups)
    requires SlotUnique(read, ctx, a) && forall l :: l in a <==> l in b
    requires GroupsOf(read, ctx, a, g) && GroupsOf(read, ctx, b, h)
    ensures g == h
  {
    forall slot ensures slot in g <==> slot in h ensures slot in g && slot in h ==> g[slot] == h[slot] {
      assert slot in g ==> g[slot] in b && Fits(read, ctx, g[slot], slot);
      assert slot in h ==> h[slot] in a && Fits(read, ctx, h[slot], slot);
    }
  }

  lemma SameMembers<T(!new)>(a: seq<T>, b: seq<T>)
    requires multiset(a) == multiset(b)
    ensures forall x :: x in a <==> x in b
  {
    forall x ensures x in a <==> x in b {
      assert x in a <==> x in multiset(a);
      assert x in b <==> x in multiset(b);
    }
  }

  // ---- One candidate ----

  function Width(l: Listing): real {
    l.ask - l.bid
  }

  function Middle(l: Listing): real {
    (l.bid + l.ask) / 2.0
  }

  predicate Priced(l: Listing) {
    l.evidenceOk && 0.0 < l.bid <= l.ask
  }

  predicate Narrow(ctx: Context, l: Listing)
    requires Priced(l)
  {
    Width(l) / Middle(l) <= ctx.maximumSpread
  }

  datatype Verdict = Unsound(failure: Failure) | TooWide | Fair(spread: real)

  function Widths(legs: seq<Listing>): real {
    if legs == [] then 0.0 else Widths(legs[..|legs| - 1]) + Width(legs[|legs| - 1])
  }

  function Middles(legs: seq<Listing>): real {
    if legs == [] then 0.0 else Middles(legs[..|legs| - 1]) + Middle(legs[|legs| - 1])
  }

  /** The first leg that is unsound or too wide decides; after it no leg is looked at. */
  predicate StopsAt(ctx: Context, legs: seq<Listing>, k: nat) {
    && k < |legs| && (forall i :: 0 <= i < k ==> Priced(legs[i]) && Narrow(ctx, legs[i]))
    && (Priced(legs[k]) ==> !Narrow(ctx, legs[k]))
  }

  predicate AllNarrow(ctx: Context, legs: seq<Listing>) {
    forall i :: 0 <= i < |legs| ==> Priced(legs[i]) && Narrow(ctx, legs[i])
  }

  predicate Synchronized(legs: seq<Listing>) {
    forall i, j :: 0 <= i < |legs| && 0 <= j < |legs| ==> legs[i].quoteAt - legs[j].quoteAt <= SYNCHRONY
  }

  lemma NarrowBound(w: real, m: real, limit: real)
    requires m > 0.0
    ensures w / m <= limit <==> w <= limit * m
  {
  }

  lemma {:induction false} SumsBound(ctx: Context, legs: seq<Listing>)
    requires AllNarrow(ctx, legs)
    ensures Widths(legs) <= ctx.maximumSpread * Middles(legs)
    ensures Middles(legs) >= 0.0 && (legs != [] ==> Middles(legs) > 0.0)
  {
    if legs != [] {
      var init, last := legs[..|legs| - 1], legs[|legs| - 1];
      SumsBound(ctx, init);
      NarrowBound(Width(last), Middle(last), ctx.maximumSpread);
      assert ctx.maximumSpread * (Middles(init) + Middle(last)) ==
             ctx.maximumSpread * Middles(init) + ctx.maximumSpread * Middle(last);
    }
  }

  /** In exact arithmetic a package whose legs are all narrow enough is narrow enough itself, so the
      package test never rejects anything. */
  lemma PackageNeverRejects(ctx: Context, legs: seq<Listing>)
    requires AllNarrow(ctx, legs) && legs != []
    ensures Middles(legs) > 0.0 && Widths(legs) / Middles(legs) <= ctx.maximumSpread
  {
    SumsBound(ctx, legs);
    NarrowBound(Widths(legs), Middles(legs), ctx.maximumSpread);
  }

  /** One candidate, leg by leg in the order of the package's strikes. */
  method Weigh(ctx: Context, legs: seq<Listing>) returns (v: Verdict)
    requires legs != []
    ensures v == Unsound(EvidenceInvalid) <==> exists k: nat :: StopsAt(ctx, legs, k) && !Priced(legs[k])
    ensures v.TooWide? <==> exists k: nat :: StopsAt(ctx, legs, k) && Priced(legs[k])
    ensures v == Unsound(NotSynchronized) <==> AllNarrow(ctx, legs) && !Synchronized(legs)
    ensures v.Fair? <==> AllNarrow(ctx, legs) && Synchronized(legs)
    ensures v.Fair? ==> Middles(legs) > 0.0 && v.spread == Widths(legs) / Middles(legs) && 0.0 <= v.spread <= ctx.maximumSpread
    ensures v.Unsound? ==> v.failure == EvidenceInvalid || v.failure == NotSynchronized
  {
    for i := 0 to |legs|
      invariant forall k :: 0 <= k < i ==> Priced(legs[k]) && Narrow(ctx, legs[k])
    {
      if !Priced(legs[i]) {
        assert StopsAt(ctx, legs, i);
        OneStop(ctx, legs, i);
        return Unsound(EvidenceInvalid);
      }
      if !Narrow(ctx, legs[i]) {
        assert StopsAt(ctx, legs, i);
        OneStop(ctx, legs, i);
        return TooWide;
      }
    }
    if !Synchronized(legs) {
      return Unsound(NotSynchronized);
    }
    SumsBound(ctx, legs);
    PackageNeverRejects(ctx, legs);
    WidthsPositive(ctx, legs);
    var spread := Widths(legs) / Middles(legs);
    if spread > ctx.maximumSpread {
      assert false;
      return TooWide;
    }
    return Fair(spread);
  }

  lemma OneStop(ctx: Context, legs: seq<Listing>, i: nat)
    requires StopsAt(ctx, legs, i)
    ensures forall k: nat :: StopsAt(ctx, legs, k) ==> k == i
    ensures !AllNarrow(ctx, legs)
  {
  }

  lemma {:induction false} WidthsPositive(ctx: Context, legs: seq<Listing>)
    requires AllNarrow(ctx, legs)
    ensures Widths(legs) >= 0.0
  {
    if legs != [] {
      WidthsPositive(ctx, legs[..|legs| - 1]);
    }
  }

  // ---- All candidates ----

  function Filled(g: Groups, ctx: Context): set<nat> {
    set slot | slot in g && (forall strike :: strike in ctx.strikes ==> Slot(slot.expiry, strike) in g) :: slot.expiry
  }

  lemma LeastExists(s: set<nat>)
    requires s != {}
    ensures exists m :: m in s && forall x :: x in s ==> m <= x
  {
    var m :| m in s;
    if s != {m} {
      LeastExists(s - {m});
      var n :| n in s - {m} && forall x :: x in s - {m} ==> n <= x;
      var least := if m < n then m else n;
      assert forall x :: x in s ==> x == m || x in s - {m};
      assert least in s && forall x :: x in s ==> least <= x;
    }
  }

  /** The numbers of a set, ascending. */
  function Ascending(s: set<nat>): seq<nat> {
    if s == {} then []
    else
      LeastExists(s);
      var m :| m in s && forall x :: x in s ==> m <= x;
      [m] + Ascending(s - {m})
  }

  function Candidates(g: Groups, ctx: Context): seq<nat> {
    var all := Ascending(Filled(g, ctx));
    if |all| <= MAX_CANDIDATES then all else all[..MAX_CANDIDATES]
  }

  lemma {:induction false} AscendingIs(s: set<nat>)
    ensures forall x :: x in Ascending(s) <==> x in s
    ensures forall i, j :: 0 <= i < j < |Ascending(s)| ==> Ascending(s)[i] < Ascending(s)[j]
  {
    if s != {} {
      LeastExists(s);
      var a := Ascending(s);
      var m, rest := a[0], a[1..];
      assert m in s && (forall x :: x in s ==> m <= x) && a == [m] + rest && rest == Ascending(s - {m});
      AscendingIs(s - {m});
      forall i, j | 0 <= i < j < |a| ensures a[i] < a[j] {
        assert a[j] == rest[j - 1] && a[j] in rest;
        assert i > 0 ==> a[i] == rest[i - 1];
      }
    }
  }

  predicate Complete(g: Groups, ctx: Context, e: nat) {
    forall strike :: strike in ctx.strikes ==> Slot(e, strike) in g
  }

  /** The candidate expirations are the earliest complete ones. */
  lemma CandidatesAre(g: Groups, ctx: Context)
    requires ctx.strikes != []
    ensures forall e :: e in Candidates(g, ctx) ==> Complete(g, ctx, e)
    ensures forall e :: Complete(g, ctx, e) && e !in Candidates(g, ctx) ==>
              |Candidates(g, ctx)| == MAX_CANDIDATES && forall c :: c in Candidates(g, ctx) ==> c < e
    ensures forall i, j :: 0 <= i < j < |Candidates(g, ctx)| ==> Candidates(g, ctx)[i] < Candidates(g, ctx)[j]
  {
    var all := Ascending(Filled(g, ctx));
    AscendingIs(Filled(g, ctx));
    forall e | Complete(g, ctx, e) ensures e in Filled(g, ctx) {
      assert Slot(e, ctx.strikes[0]) in g;
      assert ctx.strikes[0] in ctx.strikes;
    }
    forall e | e in Candidates(g, ctx) ensures Complete(g, ctx, e) {
      assert e in all;
    }
    forall e, c | Complete(g, ctx, e) && e !in Candidates(g, ctx) && c in Candidates(g, ctx) ensures c < e {
      assert e in all;
    }
  }

  function Legs(g: Groups, ctx: Context, e: nat): seq<Listing>
    requires Complete(g, ctx, e)
  {
    seq(|ctx.strikes|, i requires 0 <= i < |ctx.strikes| => g[Slot(e, ctx.strikes[i])])
  }

  predicate FairLegs(ctx: Context, legs: seq<Listing>) {
    AllNarrow(ctx, legs) && Synchronized(legs)
  }

  ghost predicate UnsoundLegs(ctx: Context, legs: seq<Listing>) {
    (exists k: nat :: StopsAt(ctx, legs, k) && !Priced(legs[k])) || (AllNarrow(ctx, legs) && !Synchronized(legs))
  }

  datatype Offer = Offer(spread: real, expiry: nat, legs: seq<Listing>)

  predicate IsOffer(g: Groups, ctx: Context, o: Offer) {
    && Complete(g, ctx, o.expiry) && o.legs == Legs(g, ctx, o.expiry) && FairLegs(ctx, o.legs)
    && Middles(o.legs) > 0.0 && o.spread == Widths(o.legs) / Middles(o.legs)
  }

  /** Narrower packages first, then earlier expirations. */
  predicate Before(a: Offer, b: Offer) {
    a.spread < b.spread || (a.spread == b.spread && a.expiry < b.expiry)
  }

  function ByPrice(): Order<Offer> {
    (a: Offer, b: Offer) => Before(a, b)
  }

  /** The symbols of all candidate packages, in the order in which their contracts are asked for. */
  function AllSymbols(g: Groups, ctx: Context, candidates: seq<nat>): seq<Text>
    requires forall e :: e in candidates ==> Complete(g, ctx, e)
  {
    if candidates == [] then []
    else
      var legs := Legs(g, ctx, candidates[0]);
      seq(|legs|, i requires 0 <= i < |legs| => legs[i].symbol) + AllSymbols(g, ctx, candidates[1..])
  }

  function SetOf<T>(s: seq<T>): set<T> {
    set x | x in s
  }

  /** The contract source has records for exactly the symbols asked for. */
  ghost predicate Covered(g: Groups, ctx: Context) {
    && (forall e :: e in Candidates(g, ctx) ==> Complete(g, ctx, e))
    && ctx.contracts(AllSymbols(g, ctx, Candidates(g, ctx))) == SetOf(AllSymbols(g, ctx, Candidates(g, ctx)))
  }

  ghost predicate Fails(g: Groups, ctx: Context, adjusted: bool) {
    || (Candidates(g, ctx) == [] && adjusted)
    || (Candidates(g, ctx) != [] && !Covered(g, ctx))
    || exists e :: e in Candidates(g, ctx) && Complete(g, ctx, e) && UnsoundLegs(ctx, Legs(g, ctx, e))
  }

  ghost predicate Offers(g: Groups, ctx: Context, offers: seq<Offer>) {
    Ascends(ByPrice(), offers) && forall o :: o in offers <==> o.expiry in Candidates(g, ctx) && IsOffer(g, ctx, o)
  }

  lemma PriceIsStrict()
    ensures Strict(ByPrice())
  {
  }

  lemma OfferedOnce(offers: seq<Offer>, x: Offer)
    requires Ascends(ByPrice(), offers) && forall o :: o in offers ==> o.expiry != x.expiry
    ensures Ascends(ByPrice(), Insert(ByPrice(), offers, x))
    ensures forall o :: o in Insert(ByPrice(), offers, x) <==> o == x || o in offers
  {
    PriceIsStrict();
    InsertAscends(ByPrice(), offers, x);
    InsertElements(ByPrice(), offers, x);
  }

  /** The offers of the candidates, narrowest first.  It fails exactly when there is no candidate and adjusted
      contracts were passed over, when the contract records do not cover the candidates, or when some
      candidate is unsound; the second is found before any leg is weighed. */
  method Choose(g: Groups, ctx: Context, adjusted: bool) returns (r: Result<seq<Offer>, Failure>)
    requires ctx.strikes != []
    ensures r.Err? <==> Fails(g, ctx, adjusted)
    ensures r == Err(NonStandardUnsupported) <==> Candidates(g, ctx) == [] && adjusted
    ensures r == Err(ContractEvidenceInvalid) <==> Candidates(g, ctx) != [] && !Covered(g, ctx)
    ensures r.Ok? ==> Offers(g, ctx, r.value)
  {
    var candidates := Candidates(g, ctx);
    CandidatesAre(g, ctx);
    if candidates == [] {
      return if adjusted then Err(NonStandardUnsupported) else Ok([]);
    }
    var symbols := AllSymbols(g, ctx, candidates);
    if ctx.contracts(symbols) != SetOf(symbols) {
      return Err(ContractEvidenceInvalid);
    }
    r := WeighAll(g, ctx, candidates);
  }

  /** The candidates weighed one after the other; the first unsound one ends the selection. */
  method WeighAll(g: Groups, ctx: Context, candidates: seq<nat>) returns (r: Result<seq<Offer>, Failure>)
    requires ctx.strikes != [] && (forall e :: e in candidates ==> Complete(g, ctx, e))
    requires forall i, j :: 0 <= i < j < |candidates| ==> candidates[i] < candidates[j]
    ensures r.Err? <==> exists e :: e in candidates && Complete(g, ctx, e) && UnsoundLegs(ctx, Legs(g, ctx, e))
    ensures r.Err? ==> r.error == EvidenceInvalid || r.error == NotSynchronized
    ensures r.Ok? ==> Ascends(ByPrice(), r.value) && forall o :: o in r.value <==> o.expiry in candidates && IsOffer(g, ctx, o)
  {
    var offers: seq<Offer> := [];
    for i := 0 to |candidates|
      invariant Ascends(ByPrice(), offers)
      invariant forall o :: o in offers <==> o.expiry in candidates[..i] && IsOffer(g, ctx, o)
      invariant forall e :: e in candidates[..i] ==> Complete(g, ctx, e) && !UnsoundLegs(ctx, Legs(g, ctx, e))
    {
      var e := candidates[i];
      assert e in candidates && candidates[..i + 1] == candidates[..i] + [e];
      var legs := Legs(g, ctx, e);
      var verdict := Weigh(ctx, legs);
      match verdict {
        case Unsound(failure) =>
          assert UnsoundLegs(ctx, legs);
          return Err(failure);
        case TooWide =>
          assert !FairLegs(ctx, legs);
        case Fair(spread) =>
          assert e !in candidates[..i];
          OfferedOnce(offers, Offer(spread, e, legs));
          offers := Insert(ByPrice(), offers, Offer(spread, e, legs));
      }
    }
    assert candidates[..|candidates|] == candidates;
    return Ok(offers);
  }

  /** The offers of these candidates, narrowest first. */
  ghost function OfferList(g: Groups, ctx: Context, candidates: seq<nat>): seq<Offer>
    requires forall e :: e in candidates ==> Complete(g, ctx, e)
  {
    if candidates == [] then []
    else
      var e := candidates[0];
      var rest, legs := OfferList(g, ctx, candidates[1..]), Legs(g, ctx, e);
      if FairLegs(ctx, legs) && Middles(legs) > 0.0 then
        Insert(ByPrice(), rest, Offer(Widths(legs) / Middles(legs), e, legs))
      else rest
  }

  lemma {:induction false} OfferListIs(g: Groups, ctx: Context, candidates: seq<nat>)
    requires forall e :: e in candidates ==> Complete(g, ctx, e)
    requires forall i, j :: 0 <= i < j < |candidates| ==> candidates[i] < candidates[j]
    ensures Ascends(ByPrice(), OfferList(g, ctx, candidates))
    ensures forall o :: o in OfferList(g, ctx, candidates) <==> o.expiry in candidates && IsOffer(g, ctx, o)
  {
    if candidates != [] {
      var e, rest := candidates[0], candidates[1..];
      OfferListIs(g, ctx, rest);
      assert candidates == [e] + rest && e !in rest;
      var legs := Legs(g, ctx, e);
      if FairLegs(ctx, legs) && Middles(legs) > 0.0 {
        OfferedOnce(OfferList(g, ctx, rest), Offer(Widths(legs) / Middles(legs), e, legs));
      }
    }
  }

  lemma OffersDetermined(g: Groups, ctx: Context, x: seq<Offer>, y: seq<Offer>)
    requires Offers(g, ctx, x) && Offers(g, ctx, y)
    ensures x == y
  {
    PriceIsStrict();
    AscendingDetermined(ByPrice(), x, y);
  }

  /** Every entry can be read and the candidates do not fail. */
  ghost predicate Selects(read: Reader, ctx: Context, chain: seq<Listing>) {
    && (forall l :: l in chain ==> Readable(read, ctx, l))
    && !Fails(Filed(read, ctx, chain), ctx, SawAdjusted(read, chain))
  }

  /** The offers that groups lead to. */
  ghost function OffersOf(g: Groups, ctx: Context): (offers: seq<Offer>)
    requires ctx.strikes != []
    ensures Offers(g, ctx, offers)
  {
    CandidatesAre(g, ctx);
    OfferListIs(g, ctx, Candidates(g, ctx));
    OfferList(g, ctx, Candidates(g, ctx))
  }

  /** What the selection returns for a chain; None when it raises. */
  ghost function Selected(read: Reader, ctx: Context, chain: seq<Listing>): Option<seq<Offer>>
    requires ctx.strikes != []
  {
    if Selects(read, ctx, chain) then Some(OffersOf(Filed(read, ctx, chain), ctx)) else None
  }

  method Select(read: Reader, ctx: Context, chain: seq<Listing>) returns (r: Result<seq<Offer>, Failure>)
    requires Sound(read) && ctx.strikes != []
    ensures r.Ok? <==> Selects(read, ctx, chain)
    ensures r.Ok? ==> Offers(Filed(read, ctx, chain), ctx, r.value)
    ensures Selected(read, ctx, chain) == if r.Ok? then Some(r.value) else None
  {
    var grouped := Group(read, ctx, chain);
    if grouped.Err? {
      return Err(grouped.error);
    }
    r := Choose(grouped.value.0, ctx, grouped.value.1);
    if r.Ok? {
      OffersDetermined(grouped.value.0, ctx, r.value, OffersOf(grouped.value.0, ctx));
    }
  }

  lemma AdjustedForgetsOrder(read: Reader, a: seq<Listing>, b: seq<Listing>)
    requires SameElements(a, b)
    ensures SawAdjusted(read, a) <==> SawAdjusted(read, b)
  {
    if SawAdjusted(read, a) {
      var l :| l in a && IsAdjusted(read, l);
      assert l in b;
    }
    if SawAdjusted(read, b) {
      var l :| l in b && IsAdjusted(read, l);
      assert l in a;
    }
  }

  // ---- A chain whose order matters ----

  /** One contract, any number of times, and a source that has a record for whatever it is asked for. */
  function OnlyContract(c: Contract): Context {
    Context(c.root, c.right, [c.strike], (d: nat) => true, 1.0, (symbols: seq<Text>) => SetOf(symbols))
  }

  function PlainListing(symbol: Text): Listing {
    Listing(symbol, true, true, 1.0, 1.0, 0)
  }

  lemma OnlyOffer(c: Contract, symbol: Text) returns (offers: seq<Offer>)
    ensures var ctx, e := OnlyContract(c), DateCode(c);
            && offers == [Offer(0.0, e, [PlainListing(symbol)])]
            && !Fails(map[Slot(e, c.strike) := PlainListing(symbol)], ctx, false)
            && Offers(map[Slot(e, c.strike) := PlainListing(symbol)], ctx, offers)
  {
    var ctx, e, l := OnlyContract(c), DateCode(c), PlainListing(symbol);
    var g := map[Slot(e, c.strike) := l];
    assert Filled(g, ctx) == {e} by {
      assert Slot(e, c.strike) in g;
    }
    LeastExists({e});
    assert {e} - {e} == {} && Ascending({e}) == [e];
    assert Legs(g, ctx, e) == [l];
    assert Widths([l]) == Widths([]) + 0.0 && Middles([l]) == Middles([]) + 1.0 by {
      assert [l][..0] == [];
    }
    offers := [Offer(0.0, e, [l])];
  }

  lemma FiledPair(read: Reader, ctx: Context, a: Listing, b: Listing, slot: Slot)
    requires Fits(read, ctx, a, slot) && Fits(read, ctx, b, slot)
    ensures Filed(read, ctx, [a, b]) == map[slot := b]
    ensures !SawAdjusted(read, [a, b])
  {
    FiledOneMore(read, ctx, [], a);
    FiledOneMore(read, ctx, [a], b);
    assert [] + [a] == [a] && [a] + [b] == [a, b];
  }

  /** Two symbols of one standard contract: the chain that lists `s` and then `t` offers `t`. */
  lemma LaterIsOffered(read: Reader, contract: Contract, s: Text, t: Text) returns (offers: seq<Offer>)
    requires read(s) == Some(contract) && read(t) == Some(contract) && Letters(contract.root)
    ensures var ctx, chain := OnlyContract(contract), [PlainListing(s), PlainListing(t)];
            && Selects(read, ctx, chain) && Offers(Filed(read, ctx, chain), ctx, offers)
            && Filed(read, ctx, chain) == map[Slot(DateCode(contract), contract.strike) := PlainListing(t)]
    ensures |offers| == 1 && offers[0].legs == [PlainListing(t)]
  {
    FiledPair(read, OnlyContract(contract), PlainListing(s), PlainListing(t), Slot(DateCode(contract), contract.strike));
    offers := OnlyOffer(contract, t);
  }

  /** With digits outside ASCII two listings can stand for one contract.  The later one wins, so the two
      orders of this chain are both accepted with different offers. */
  lemma ForeignChainDependsOnOrder(table: DigitTable, c: int)
    returns (ctx: Context, a: Listing, b: Listing, x: seq<Offer>, y: seq<Offer>)
    requires ExtendsAscii(table) && table(c).Some? && !(0 <= c < 128)
    ensures ctx.strikes != [] && Selects(ParseWith(table), ctx, [a, b]) && Selects(ParseWith(table), ctx, [b, a])
    ensures Offers(Filed(ParseWith(table), ctx, [a, b]), ctx, x) && Offers(Filed(ParseWith(table), ctx, [b, a]), ctx, y)
    ensures x != y && Filed(ParseWith(table), ctx, [a, b]) != Filed(ParseWith(table), ctx, [b, a])
  {
    var read := ParseWith(table);
    var contract, s, t := ForeignDigitsCollide(table, c);
    ctx, a, b := OnlyContract(contract), PlainListing(s), PlainListing(t);
    assert read(s) == Some(contract) && read(t) == Some(contract);
    x := LaterIsOffered(read, contract, s, t);
    y := LaterIsOffered(read, contract, t, s);
    var slot := Slot(DateCode(contract), contract.strike);
    assert a != b && map[slot := a][slot] != map[slot := b][slot];
    assert x[0].legs[0] != y[0].legs[0];
  }
}

/** When the roll selection depends on the order of the chain. */
module RollOrder {
  import opened Common
  import opened Sorting
  import opened RollSelection

  // ---- Reordering a chain gives every choice of fitting listings ----

  lemma OneMoreOff(read: Reader, ctx: Context, a: seq<Listing>, b: seq<Listing>, x: Listing, slot: Slot, l: Listing)
    requires Filed(read, ctx, a)[slot := l] == Filed(read, ctx, b)[slot := l]
    ensures Filed(read, ctx, a + [x])[slot := l] == Filed(read, ctx, b + [x])[slot := l]
  {
    var f, g := Filed(read, ctx, a), Filed(read, ctx, b);
    FiledOneMore(read, ctx, a, x);
    FiledOneMore(read, ctx, b, x);
    forall s | s != slot ensures s in f <==> s in g ensures s in f ==> f[s] == g[s] {
      assert s in f <==> s in f[slot := l];
      assert s in g <==> s in g[slot := l];
      assert s in f ==> f[slot := l][s] == f[s];
      assert s in g ==> g[slot := l][s] == g[s];
    }
    if SlotOf(read, ctx, x).Some? {
      var t := SlotOf(read, ctx, x).value;
      assert Fits(read, ctx, x, t);
      assert f[t := x][slot := l] == g[t := x][slot := l];
    }
  }

  lemma LastOf<T>(front: seq<T>, back: seq<T>)
    requires back != []
    ensures front + back == front + back[..|back| - 1] + [back[|back| - 1]]
  {
  }

  /** Taking a listing out of the chain changes its own slot alone. */
  lemma {:induction false} FiledOff(read: Reader, ctx: Context, front: seq<Listing>, l: Listing, back: seq<Listing>, slot: Slot)
    requires Fits(read, ctx, l, slot)
    ensures Filed(read, ctx, front + back)[slot := l] == Filed(read, ctx, front + [l] + back)[slot := l]
    decreases |back|
  {
    if back == [] {
      FiledOneMore(read, ctx, front, l);
      assert front + back == front && front + [l] + back == front + [l];
    } else {
      var init, x := back[..|back| - 1], back[|back| - 1];
      FiledOff(read, ctx, front, l, init, slot);
      OneMoreOff(read, ctx, front + init, front + [l] + init, x, slot, l);
      LastOf(front, back);
      LastOf(front + [l], back);
    }
  }

  /** Moved to the end of the chain, a listing takes its slot and changes nothing else. */
  lemma MoveToEnd(read: Reader, ctx: Context, chain: seq<Listing>, l: Listing, slot: Slot) returns (other: seq<Listing>)
    requires l in chain && Fits(read, ctx, l, slot)
    ensures multiset(other) == multiset(chain)
    ensures Filed(read, ctx, other) == Filed(read, ctx, chain)[slot := l]
  {
    var i :| 0 <= i < |chain| && chain[i] == l;
    var front, back := chain[..i], chain[i + 1..];
    other := front + back + [l];
    assert chain == front + [l] + back;
    FiledOneMore(read, ctx, front + back, l);
    FiledOff(read, ctx, front, l, back, slot);
  }

  function Differing(f: Groups, g: Groups): set<Slot> {
    set slot | slot in g && (slot !in f || f[slot] != g[slot])
  }

  lemma DifferNowhere(f: Groups, g: Groups)
    requires f.Keys == g.Keys && Differing(f, g) == {}
    ensures f == g
  {
    forall slot | slot in g ensures f[slot] == g[slot] {
      assert slot !in Differing(f, g);
    }
  }

  lemma DifferLess(f: Groups, g: Groups, slot: Slot)
    requires slot in Differing(f, g)
    ensures Differing(f[slot := g[slot]], g) == Differing(f, g) - {slot}
    ensures |Differing(f[slot := g[slot]], g)| < |Differing(f, g)|
  {
    assert Differing(f[slot := g[slot]], g) == Differing(f, g) - {slot};
  }

  lemma SameKeys(read: Reader, ctx: Context, chain: seq<Listing>, g: Groups, h: Groups)
    requires GroupsOf(read, ctx, chain, g) && GroupsOf(read, ctx, chain, h)
    ensures g.Keys == h.Keys && Candidates(g, ctx) == Candidates(h, ctx)
  {
    forall slot ensures slot in g <==> slot in h {
      assert slot in g ==> Fits(read, ctx, g[slot], slot);
      assert slot in h ==> Fits(read, ctx, h[slot], slot);
    }
    assert Filled(g, ctx) == Filled(h, ctx);
  }

  lemma SameGroups(read: Reader, ctx: Context, chain: seq<Listing>, other: seq<Listing>, g: Groups)
    requires multiset(chain) == multiset(other)
    ensures GroupsOf(read, ctx, chain, g) <==> GroupsOf(read, ctx, other, g)
  {
    SameMembers(chain, other);
  }

  /** Every choice of one fitting listing per slot is what some reordering of the chain is filed as. */
  lemma {:induction false} GroupsAreReorderings(read: Reader, ctx: Context, chain: seq<Listing>, g: Groups)
    returns (other: seq<Listing>)
    requires GroupsOf(read, ctx, chain, g)
    ensures multiset(other) == multiset(chain) && Filed(read, ctx, other) == g
    decreases |Differing(Filed(read, ctx, chain), g)|
  {
    var f := Filed(read, ctx, chain);
    FiledIsGrouped(read, ctx, chain);
    SameKeys(read, ctx, chain, f, g);
    if Differing(f, g) == {} {
      DifferNowhere(f, g);
      return chain;
    }
    var slot :| slot in Differing(f, g);
    var closer := MoveToEnd(read, ctx, chain, g[slot], slot);
    SameGroups(read, ctx, chain, closer, g);
    DifferLess(f, g, slot);
    other := GroupsAreReorderings(read, ctx, closer, g);
  }

  // ---- When the filing depends on the order ----

  ghost predicate OrderFree(read: Reader, ctx: Context, chain: seq<Listing>) {
    forall other: seq<Listing> :: multiset(other) == multiset(chain) ==> Filed(read, ctx, other) == Filed(read, ctx, chain)
  }

  /** Exactly the chains in which no two different listings fit one slot are filed alike in every order. */
  lemma FilingForgetsOrderExactly(read: Reader, ctx: Context, chain: seq<Listing>)
    ensures OrderFree(read, ctx, chain) <==> SlotUnique(read, ctx, chain)
  {
    if SlotUnique(read, ctx, chain) {
      forall other: seq<Listing> | multiset(other) == multiset(chain) ensures Filed(read, ctx, other) == Filed(read, ctx, chain) {
        SameMembers(chain, other);
        FiledIsGrouped(read, ctx, chain);
        FiledIsGrouped(read, ctx, other);
        GroupsForgetOrder(read, ctx, chain, other, Filed(read, ctx, chain), Filed(read, ctx, other));
      }
    }
    if OrderFree(read, ctx, chain) {
      forall a, b, slot | a in chain && b in chain && Fits(read, ctx, a, slot) && Fits(read, ctx, b, slot) ensures a == b {
        var toA := MoveToEnd(read, ctx, chain, a, slot);
        var toB := MoveToEnd(read, ctx, chain, b, slot);
        assert Filed(read, ctx, toA) == Filed(read, ctx, toB);
        assert Filed(read, ctx, toA)[slot] == a && Filed(read, ctx, toB)[slot] == b;
      }
    }
  }

  // ---- Choosing listings slot by slot ----

  type Taste = (Slot, Listing) -> bool

  predicate CanPick(read: Reader, ctx: Context, chain: seq<Listing>, likes: Taste, slot: Slot) {
    exists l :: l in chain && Fits(read, ctx, l, slot) && likes(slot, l)
  }

  function Unliked(g: Groups, likes: Taste): set<Slot> {
    set slot | slot in g && !likes(slot, g[slot])
  }

  lemma ReplaceOne(read: Reader, ctx: Context, chain: seq<Listing>, g: Groups, slot: Slot, l: Listing)
    requires GroupsOf(read, ctx, chain, g) && l in chain && Fits(read, ctx, l, slot)
    ensures GroupsOf(read, ctx, chain, g[slot := l])
  {
  }

  lemma {:induction false} PickFrom(read: Reader, ctx: Context, chain: seq<Listing>, likes: Taste, base: Groups)
    returns (g: Groups)
    requires GroupsOf(read, ctx, chain, base)
    requires forall slot :: slot in base ==> CanPick(read, ctx, chain, likes, slot)
    ensures GroupsOf(read, ctx, chain, g) && forall slot :: slot in g ==> likes(slot, g[slot])
    decreases |Unliked(base, likes)|
  {
    if Unliked(base, likes) == {} {
      forall slot | slot in base ensures likes(slot, base[slot]) {
        assert slot !in Unliked(base, likes);
      }
      return base;
    }
    var slot :| slot in Unliked(base, likes);
    assert CanPick(read, ctx, chain, likes, slot);
    var l :| l in chain && Fits(read, ctx, l, slot) && likes(slot, l);
    ReplaceOne(read, ctx, chain, base, slot, l);
    assert Unliked(base[slot := l], likes) == Unliked(base, likes) - {slot};
    g := PickFrom(read, ctx, chain, likes, base[slot := l]);
  }

  /** If every slot has a listing to one's taste, they can all be chosen together. */
  lemma Pick(read: Reader, ctx: Context, chain: seq<Listing>, likes: Taste) returns (g: Groups)
    requires forall slot :: slot in Filed(read, ctx, chain) ==> CanPick(read, ctx, chain, likes, slot)
    ensures GroupsOf(read, ctx, chain, g) && forall slot :: slot in g ==> likes(slot, g[slot])
  {
    FiledIsGrouped(read, ctx, chain);
    g := PickFrom(read, ctx, chain, likes, Filed(read, ctx, chain));
  }

  // ---- What every order of a chain agrees on ----

  ghost function Result(read: Reader, ctx: Context, chain: seq<Listing>, g: Groups): Option<seq<Offer>>
    requires ctx.strikes != []
  {
    if Fails(g, ctx, SawAdjusted(read, chain)) then None else Some(OffersOf(g, ctx))
  }

  ghost predicate AllReadable(read: Reader, ctx: Context, chain: seq<Listing>) {
    forall l :: l in chain ==> Readable(read, ctx, l)
  }

  ghost predicate SelectionOrderFree(read: Reader, ctx: Context, chain: seq<Listing>)
    requires ctx.strikes != []
  {
    forall other: seq<Listing> :: multiset(other) == multiset(chain) ==> Selected(read, ctx, other) == Selected(read, ctx, chain)
  }

  ghost predicate EveryChoiceFails(read: Reader, ctx: Context, chain: seq<Listing>) {
    forall g :: GroupsOf(read, ctx, chain, g) ==> Fails(g, ctx, SawAdjusted(read, chain))
  }

  ghost predicate NoChoiceFails(read: Reader, ctx: Context, chain: seq<Listing>) {
    forall g :: GroupsOf(read, ctx, chain, g) ==> !Fails(g, ctx, SawAdjusted(read, chain))
  }

  predicate Rivals(read: Reader, ctx: Context, chain: seq<Listing>, e: nat, a: Listing, b: Listing, strike: nat) {
    && a in chain && b in chain && strike in ctx.strikes
    && Fits(read, ctx, a, Slot(e, strike)) && Fits(read, ctx, b, Slot(e, strike))
  }

  /** Each strike of the expiration has one listing. */
  ghost predicate OnePerStrike(read: Reader, ctx: Context, chain: seq<Listing>, e: nat) {
    forall a, b, strike :: Rivals(read, ctx, chain, e, a, b, strike) ==> a == b
  }

  predicate Good(ctx: Context, l: Listing) {
    Priced(l) && Narrow(ctx, l)
  }

  ghost predicate HasGood(read: Reader, ctx: Context, chain: seq<Listing>, e: nat, strike: nat) {
    exists l :: l in chain && Fits(read, ctx, l, Slot(e, strike)) && Good(ctx, l)
  }

  /** Some strike of the expiration has no listing that is priced and narrow enough. */
  ghost predicate NeverNarrow(read: Reader, ctx: Context, chain: seq<Listing>, e: nat) {
    exists strike :: strike in ctx.strikes && !HasGood(read, ctx, chain, e, strike)
  }

  ghost predicate Settled(read: Reader, ctx: Context, chain: seq<Listing>) {
    forall e :: e in Candidates(Filed(read, ctx, chain), ctx) ==>
      OnePerStrike(read, ctx, chain, e) || NeverNarrow(read, ctx, chain, e)
  }

  lemma ReorderedResult(read: Reader, ctx: Context, chain: seq<Listing>, other: seq<Listing>)
    requires ctx.strikes != [] && AllReadable(read, ctx, chain) && multiset(other) == multiset(chain)
    ensures Selected(read, ctx, other) == Result(read, ctx, chain, Filed(read, ctx, other))
    ensures GroupsOf(read, ctx, chain, Filed(read, ctx, other))
  {
    SameMembers(chain, other);
    AdjustedForgetsOrder(read, chain, other);
    FiledIsGrouped(read, ctx, other);
    SameGroups(read, ctx, chain, other, Filed(read, ctx, other));
  }

  ghost predicate ChoicesAlike(read: Reader, ctx: Context, chain: seq<Listing>)
    requires ctx.strikes != []
  {
    forall g, h :: GroupsOf(read, ctx, chain, g) && GroupsOf(read, ctx, chain, h) ==>
      Result(read, ctx, chain, g) == Result(read, ctx, chain, h)
  }

  /** The orders of a readable chain agree exactly when all choices of fitting listings do. */
  lemma OrdersAreChoices(read: Reader, ctx: Context, chain: seq<Listing>)
    requires ctx.strikes != [] && AllReadable(read, ctx, chain)
    ensures SelectionOrderFree(read, ctx, chain) <==> ChoicesAlike(read, ctx, chain)
  {
    if ChoicesAlike(read, ctx, chain) {
      forall other: seq<Listing> | multiset(other) == multiset(chain)
        ensures Selected(read, ctx, other) == Selected(read, ctx, chain)
      {
        ReorderedResult(read, ctx, chain, other);
        ReorderedResult(read, ctx, chain, chain);
      }
    }
    if SelectionOrderFree(read, ctx, chain) {
      forall g, h | GroupsOf(read, ctx, chain, g) && GroupsOf(read, ctx, chain, h)
        ensures Result(read, ctx, chain, g) == Result(read, ctx, chain, h)
      {
        var a := GroupsAreReorderings(read, ctx, chain, g);
        var b := GroupsAreReorderings(read, ctx, chain, h);
        ReorderedResult(read, ctx, chain, a);
        ReorderedResult(read, ctx, chain, b);
      }
    }
  }

  // ---- Settled candidates offer the same whatever is chosen ----

  lemma ChosenFits(read: Reader, ctx: Context, chain: seq<Listing>, g: Groups, e: nat, i: nat)
    requires GroupsOf(read, ctx, chain, g) && Complete(g, ctx, e) && i < |ctx.strikes|
    ensures Legs(g, ctx, e)[i] == g[Slot(e, ctx.strikes[i])] && Legs(g, ctx, e)[i] in chain
    ensures Fits(read, ctx, Legs(g, ctx, e)[i], Slot(e, ctx.strikes[i]))
  {
    assert ctx.strikes[i] in ctx.strikes;
  }

  lemma OneChoiceOfLegs(read: Reader, ctx: Context, chain: seq<Listing>, g: Groups, h: Groups, e: nat)
    requires GroupsOf(read, ctx, chain, g) && GroupsOf(read, ctx, chain, h) && Complete(g, ctx, e) && Complete(h, ctx, e)
    requires OnePerStrike(read, ctx, chain, e)
    ensures Legs(g, ctx, e) == Legs(h, ctx, e)
  {
    forall i | 0 <= i < |ctx.strikes| ensures Legs(g, ctx, e)[i] == Legs(h, ctx, e)[i] {
      ChosenFits(read, ctx, chain, g, e, i);
      ChosenFits(read, ctx, chain, h, e, i);
      assert Rivals(read, ctx, chain, e, Legs(g, ctx, e)[i], Legs(h, ctx, e)[i], ctx.strikes[i]);
    }
  }

  lemma NeverFair(read: Reader, ctx: Context, chain: seq<Listing>, g: Groups, e: nat)
    requires GroupsOf(read, ctx, chain, g) && Complete(g, ctx, e) && NeverNarrow(read, ctx, chain, e)
    ensures !FairLegs(ctx, Legs(g, ctx, e))
  {
    var strike :| strike in ctx.strikes && !HasGood(read, ctx, chain, e, strike);
    var i :| 0 <= i < |ctx.strikes| && ctx.strikes[i] == strike;
    ChosenFits(read, ctx, chain, g, e, i);
  }

  lemma SameOffer(read: Reader, ctx: Context, chain: seq<Listing>, g: Groups, h: Groups, o: Offer)
    requires GroupsOf(read, ctx, chain, g) && GroupsOf(read, ctx, chain, h) && Settled(read, ctx, chain)
    requires o.expiry in Candidates(Filed(read, ctx, chain), ctx) && IsOffer(g, ctx, o)
    ensures IsOffer(h, ctx, o)
  {
    SameKeys(read, ctx, chain, g, h);
    assert Complete(h, ctx, o.expiry);
    if NeverNarrow(read, ctx, chain, o.expiry) {
      NeverFair(read, ctx, chain, g, o.expiry);
    } else {
      OneChoiceOfLegs(read, ctx, chain, g, h, o.expiry);
    }
  }

  lemma SettledOffersAlike(read: Reader, ctx: Context, chain: seq<Listing>, g: Groups, h: Groups)
    requires ctx.strikes != [] && Settled(read, ctx, chain)
    requires GroupsOf(read, ctx, chain, g) && GroupsOf(read, ctx, chain, h)
    ensures OffersOf(g, ctx) == OffersOf(h, ctx)
  {
    FiledIsGrouped(read, ctx, chain);
    SameKeys(read, ctx, chain, g, Filed(read, ctx, chain));
    SameKeys(read, ctx, chain, h, Filed(read, ctx, chain));
    forall o ensures o in OffersOf(g, ctx) <==> o in OffersOf(h, ctx) {
      if o in OffersOf(g, ctx) {
        SameOffer(read, ctx, chain, g, h, o);
      }
      if o in OffersOf(h, ctx) {
        SameOffer(read, ctx, chain, h, g, o);
      }
    }
    PriceIsStrict();
    AscendingDetermined(ByPrice(), OffersOf(g, ctx), OffersOf(h, ctx));
  }

  // ---- Choosing the legs of one expiration ----

  /** What is wanted of the listing in one slot of an expiration. */
  datatype Wish = Any | IsGood | IsUnpriced | Exactly(l: Listing)

  predicate Grants(ctx: Context, wish: Wish, l: Listing) {
    match wish
    case Any => true
    case IsGood => Good(ctx, l)
    case IsUnpriced => !Priced(l)
    case Exactly(m) => l == m
  }

  ghost predicate CanGrant(read: Reader, ctx: Context, chain: seq<Listing>, e: nat, wishes: nat -> Wish, strike: nat) {
    exists l :: l in chain && Fits(read, ctx, l, Slot(e, strike)) && Grants(ctx, wishes(strike), l)
  }

  /** Wishes for each strike of one expiration can be granted together if each can. */
  lemma PickWished(read: Reader, ctx: Context, chain: seq<Listing>, e: nat, wishes: nat -> Wish) returns (g: Groups)
    requires Complete(Filed(read, ctx, chain), ctx, e)
    requires forall strike :: strike in ctx.strikes ==> CanGrant(read, ctx, chain, e, wishes, strike)
    ensures GroupsOf(read, ctx, chain, g) && Complete(g, ctx, e)
    ensures forall i :: 0 <= i < |ctx.strikes| ==> Grants(ctx, wishes(ctx.strikes[i]), Legs(g, ctx, e)[i])
  {
    var likes: Taste := (slot: Slot, l: Listing) =>
      slot.expiry == e && slot.strike in ctx.strikes ==> Grants(ctx, wishes(slot.strike), l);
    var f := Filed(read, ctx, chain);
    FiledIsGrouped(read, ctx, chain);
    forall slot | slot in f ensures CanPick(read, ctx, chain, likes, slot) {
      if slot.expiry == e && slot.strike in ctx.strikes {
        assert slot == Slot(e, slot.strike) && CanGrant(read, ctx, chain, e, wishes, slot.strike);
        var l :| l in chain && Fits(read, ctx, l, Slot(e, slot.strike)) && Grants(ctx, wishes(slot.strike), l);
        assert likes(slot, l);
      } else {
        assert f[slot] in chain && Fits(read, ctx, f[slot], slot) && likes(slot, f[slot]);
      }
    }
    g := Pick(read, ctx, chain, likes);
    SameKeys(read, ctx, chain, f, g);
    forall i | 0 <= i < |ctx.strikes| ensures Grants(ctx, wishes(ctx.strikes[i]), Legs(g, ctx, e)[i]) {
      ChosenFits(read, ctx, chain, g, e, i);
      assert ctx.strikes[i] in ctx.strikes && likes(Slot(e, ctx.strikes[i]), g[Slot(e, ctx.strikes[i])]);
    }
  }

  // ---- An unsettled candidate is offered in two ways ----

  /** If every strike has a good listing, they can be chosen together. */
  lemma PickGood(read: Reader, ctx: Context, chain: seq<Listing>, e: nat) returns (g: Groups)
    requires !NeverNarrow(read, ctx, chain, e) && Complete(Filed(read, ctx, chain), ctx, e)
    ensures GroupsOf(read, ctx, chain, g) && Complete(g, ctx, e) && AllNarrow(ctx, Legs(g, ctx, e))
  {
    var wishes := (strike: nat) => IsGood;
    forall strike | strike in ctx.strikes ensures CanGrant(read, ctx, chain, e, wishes, strike) {
      assert HasGood(read, ctx, chain, e, strike);
      var l :| l in chain && Fits(read, ctx, l, Slot(e, strike)) && Good(ctx, l);
      assert Grants(ctx, wishes(strike), l);
    }
    g := PickWished(read, ctx, chain, e, wishes);
    assert forall i :: 0 <= i < |ctx.strikes| ==> Grants(ctx, wishes(ctx.strikes[i]), Legs(g, ctx, e)[i]);
  }

  /** Another listing in one slot takes the offer away. */
  lemma OtherListingDiffers(read: Reader, ctx: Context, chain: seq<Listing>, g: Groups, e: nat, strike: nat, c: Listing)
    requires ctx.strikes != [] && GroupsOf(read, ctx, chain, g) && e in Candidates(g, ctx) && Complete(g, ctx, e)
    requires FairLegs(ctx, Legs(g, ctx, e)) && strike in ctx.strikes
    requires c in chain && Fits(read, ctx, c, Slot(e, strike)) && c != g[Slot(e, strike)]
    ensures GroupsOf(read, ctx, chain, g[Slot(e, strike) := c]) && OffersOf(g, ctx) != OffersOf(g[Slot(e, strike) := c], ctx)
  {
    var slot := Slot(e, strike);
    var h, legs := g[slot := c], Legs(g, ctx, e);
    ReplaceOne(read, ctx, chain, g, slot, c);
    SumsBound(ctx, legs);
    var o := Offer(Widths(legs) / Middles(legs), e, legs);
    assert IsOffer(g, ctx, o) && o in OffersOf(g, ctx);
    var i :| 0 <= i < |ctx.strikes| && ctx.strikes[i] == strike;
    assert Complete(h, ctx, e) && Legs(h, ctx, e)[i] == c && legs[i] == g[slot];
    assert !IsOffer(h, ctx, o);
  }

  lemma PickFair(read: Reader, ctx: Context, chain: seq<Listing>, e: nat) returns (g: Groups)
    requires ctx.strikes != [] && NoChoiceFails(read, ctx, chain) && !NeverNarrow(read, ctx, chain, e)
    requires e in Candidates(Filed(read, ctx, chain), ctx)
    ensures GroupsOf(read, ctx, chain, g) && e in Candidates(g, ctx) && Complete(g, ctx, e)
    ensures FairLegs(ctx, Legs(g, ctx, e))
  {
    FiledIsGrouped(read, ctx, chain);
    CandidatesAre(Filed(read, ctx, chain), ctx);
    g := PickGood(read, ctx, chain, e);
    SameKeys(read, ctx, chain, g, Filed(read, ctx, chain));
    assert !UnsoundLegs(ctx, Legs(g, ctx, e));
  }

  lemma OtherListing(read: Reader, ctx: Context, chain: seq<Listing>, g: Groups, e: nat) returns (strike: nat, c: Listing)
    requires !OnePerStrike(read, ctx, chain, e) && Complete(g, ctx, e)
    ensures strike in ctx.strikes && c in chain && Fits(read, ctx, c, Slot(e, strike)) && c != g[Slot(e, strike)]
  {
    var a, b, s :| Rivals(read, ctx, chain, e, a, b, s) && a != b;
    strike, c := s, if g[Slot(e, s)] == a then b else a;
  }

  lemma TwoResults(read: Reader, ctx: Context, chain: seq<Listing>, g: Groups, h: Groups)
    requires ctx.strikes != [] && NoChoiceFails(read, ctx, chain)
    requires GroupsOf(read, ctx, chain, g) && GroupsOf(read, ctx, chain, h) && OffersOf(g, ctx) != OffersOf(h, ctx)
    ensures !ChoicesAlike(read, ctx, chain)
  {
    assert Result(read, ctx, chain, g) != Result(read, ctx, chain, h);
  }

  lemma UnsettledDiffers(read: Reader, ctx: Context, chain: seq<Listing>, e: nat)
    requires ctx.strikes != [] && NoChoiceFails(read, ctx, chain)
    requires e in Candidates(Filed(read, ctx, chain), ctx)
    requires !OnePerStrike(read, ctx, chain, e) && !NeverNarrow(read, ctx, chain, e)
    ensures !ChoicesAlike(read, ctx, chain)
  {
    var g := PickFair(read, ctx, chain, e);
    var strike, c := OtherListing(read, ctx, chain, g, e);
    OtherListingDiffers(read, ctx, chain, g, e, strike, c);
    TwoResults(read, ctx, chain, g, g[Slot(e, strike) := c]);
  }

  /** Exactly when the choice of listings does not matter. */
  lemma ChoicesAlikeExactly(read: Reader, ctx: Context, chain: seq<Listing>)
    requires ctx.strikes != []
    ensures ChoicesAlike(read, ctx, chain) <==>
              EveryChoiceFails(read, ctx, chain) || (NoChoiceFails(read, ctx, chain) && Settled(read, ctx, chain))
  {
    if NoChoiceFails(read, ctx, chain) && Settled(read, ctx, chain) {
      forall g, h | GroupsOf(read, ctx, chain, g) && GroupsOf(read, ctx, chain, h)
        ensures Result(read, ctx, chain, g) == Result(read, ctx, chain, h)
      {
        SettledOffersAlike(read, ctx, chain, g, h);
      }
    }
    if ChoicesAlike(read, ctx, chain) && !EveryChoiceFails(read, ctx, chain) {
      var fine :| GroupsOf(read, ctx, chain, fine) && !Fails(fine, ctx, SawAdjusted(read, chain));
      forall g | GroupsOf(read, ctx, chain, g) ensures !Fails(g, ctx, SawAdjusted(read, chain)) {
        assert Result(read, ctx, chain, g) == Result(read, ctx, chain, fine);
      }
      forall e | e in Candidates(Filed(read, ctx, chain), ctx)
        ensures OnePerStrike(read, ctx, chain, e) || NeverNarrow(read, ctx, chain, e)
      {
        if !OnePerStrike(read, ctx, chain, e) && !NeverNarrow(read, ctx, chain, e) {
          UnsettledDiffers(read, ctx, chain, e);
        }
      }
    }
  }

  /** Exactly the chains whose selection is the same in every order: those with an entry that cannot be
      read, those that fail whatever listings are chosen for the slots, and those that never fail and
      whose candidates have one listing per strike or a strike without a good listing. */
  lemma SelectionForgetsOrderExactly(read: Reader, ctx: Context, chain: seq<Listing>)
    requires ctx.strikes != []
    ensures SelectionOrderFree(read, ctx, chain) <==>
              || !AllReadable(read, ctx, chain)
              || EveryChoiceFails(read, ctx, chain)
              || (NoChoiceFails(read, ctx, chain) && Settled(read, ctx, chain))
  {
    if AllReadable(read, ctx, chain) {
      OrdersAreChoices(read, ctx, chain);
      ChoicesAlikeExactly(read, ctx, chain);
    } else {
      forall other: seq<Listing> | multiset(other) == multiset(chain)
        ensures Selected(read, ctx, other) == Selected(read, ctx, chain)
      {
        SameMembers(chain, other);
      }
    }
  }

  // ---- When no choice fails, strike by strike ----

  ghost predicate HasUnpriced(read: Reader, ctx: Context, chain: seq<Listing>, e: nat, strike: nat) {
    exists l :: l in chain && Fits(read, ctx, l, Slot(e, strike)) && !Priced(l)
  }

  /** An unpriced listing can be reached: every earlier strike has a good one. */
  ghost predicate ReachesUnpriced(read: Reader, ctx: Context, chain: seq<Listing>, e: nat, k: nat) {
    && k < |ctx.strikes| && ctx.strikes[k] !in ctx.strikes[..k]
    && HasUnpriced(read, ctx, chain, e, ctx.strikes[k])
    && forall i :: 0 <= i < k ==> HasGood(read, ctx, chain, e, ctx.strikes[i])
  }

  /** Good listings of two strikes, quoted too far apart. */
  ghost predicate Apart(read: Reader, ctx: Context, chain: seq<Listing>, e: nat, a: Listing, s: nat, b: Listing, t: nat) {
    && a in chain && b in chain && s in ctx.strikes && t in ctx.strikes && s != t
    && Fits(read, ctx, a, Slot(e, s)) && Fits(read, ctx, b, Slot(e, t)) && Good(ctx, a) && Good(ctx, b)
    && a.quoteAt - b.quoteAt > SYNCHRONY
  }

  ghost predicate Risky(read: Reader, ctx: Context, chain: seq<Listing>, e: nat) {
    || (exists k: nat :: ReachesUnpriced(read, ctx, chain, e, k))
    || (!NeverNarrow(read, ctx, chain, e) && exists a, s, b, t :: Apart(read, ctx, chain, e, a, s, b, t))
  }

  lemma ApartIsRisky(read: Reader, ctx: Context, chain: seq<Listing>, g: Groups, e: nat)
    requires GroupsOf(read, ctx, chain, g) && Complete(g, ctx, e)
    requires AllNarrow(ctx, Legs(g, ctx, e)) && !Synchronized(Legs(g, ctx, e))
    ensures Risky(read, ctx, chain, e)
  {
    var legs := Legs(g, ctx, e);
    var i, j :| 0 <= i < |legs| && 0 <= j < |legs| && legs[i].quoteAt - legs[j].quoteAt > SYNCHRONY;
    ChosenFits(read, ctx, chain, g, e, i);
    ChosenFits(read, ctx, chain, g, e, j);
    forall strike | strike in ctx.strikes ensures HasGood(read, ctx, chain, e, strike) {
      var n :| 0 <= n < |ctx.strikes| && ctx.strikes[n] == strike;
      ChosenFits(read, ctx, chain, g, e, n);
      assert Good(ctx, legs[n]);
    }
    assert Apart(read, ctx, chain, e, legs[i], ctx.strikes[i], legs[j], ctx.strikes[j]);
  }

  lemma UnpricedIsRisky(read: Reader, ctx: Context, chain: seq<Listing>, g: Groups, e: nat, k: nat)
    requires GroupsOf(read, ctx, chain, g) && Complete(g, ctx, e)
    requires StopsAt(ctx, Legs(g, ctx, e), k) && !Priced(Legs(g, ctx, e)[k])
    ensures ReachesUnpriced(read, ctx, chain, e, k)
  {
    var legs := Legs(g, ctx, e);
    ChosenFits(read, ctx, chain, g, e, k);
    assert HasUnpriced(read, ctx, chain, e, ctx.strikes[k]);
    forall n | 0 <= n < k ensures HasGood(read, ctx, chain, e, ctx.strikes[n]) && ctx.strikes[n] != ctx.strikes[k] {
      ChosenFits(read, ctx, chain, g, e, n);
      assert Good(ctx, legs[n]);
    }
  }

  lemma UnsoundIsRisky(read: Reader, ctx: Context, chain: seq<Listing>, g: Groups, e: nat)
    requires GroupsOf(read, ctx, chain, g) && Complete(g, ctx, e) && UnsoundLegs(ctx, Legs(g, ctx, e))
    ensures Risky(read, ctx, chain, e)
  {
    var legs := Legs(g, ctx, e);
    if AllNarrow(ctx, legs) && !Synchronized(legs) {
      ApartIsRisky(read, ctx, chain, g, e);
    } else {
      var k: nat :| StopsAt(ctx, legs, k) && !Priced(legs[k]);
      UnpricedIsRisky(read, ctx, chain, g, e, k);
    }
  }

  /** Good listings before strike `k`, an unpriced one there. */
  function StopWishes(strikes: seq<nat>, k: nat): nat -> Wish
    requires k < |strikes|
  {
    (strike: nat) => if strike == strikes[k] then IsUnpriced else if strike in strikes[..k] then IsGood else Any
  }

  lemma StopIsGranted(read: Reader, ctx: Context, chain: seq<Listing>, e: nat, k: nat, strike: nat)
    requires Complete(Filed(read, ctx, chain), ctx, e) && ReachesUnpriced(read, ctx, chain, e, k) && strike in ctx.strikes
    ensures CanGrant(read, ctx, chain, e, StopWishes(ctx.strikes, k), strike)
  {
    var wishes := StopWishes(ctx.strikes, k);
    if strike == ctx.strikes[k] {
      var l :| l in chain && Fits(read, ctx, l, Slot(e, strike)) && !Priced(l);
      assert Grants(ctx, wishes(strike), l);
    } else if strike in ctx.strikes[..k] {
      var i :| 0 <= i < k && ctx.strikes[..k][i] == strike;
      assert HasGood(read, ctx, chain, e, ctx.strikes[i]);
      var l :| l in chain && Fits(read, ctx, l, Slot(e, strike)) && Good(ctx, l);
      assert Grants(ctx, wishes(strike), l);
    } else {
      var f := Filed(read, ctx, chain);
      FiledIsGrouped(read, ctx, chain);
      assert Slot(e, strike) in f && Grants(ctx, wishes(strike), f[Slot(e, strike)]);
    }
  }

  lemma UnpricedIsReached(read: Reader, ctx: Context, chain: seq<Listing>, e: nat, k: nat) returns (g: Groups)
    requires Complete(Filed(read, ctx, chain), ctx, e) && ReachesUnpriced(read, ctx, chain, e, k)
    ensures GroupsOf(read, ctx, chain, g) && Complete(g, ctx, e) && UnsoundLegs(ctx, Legs(g, ctx, e))
  {
    var wishes := StopWishes(ctx.strikes, k);
    forall strike | strike in ctx.strikes ensures CanGrant(read, ctx, chain, e, wishes, strike) {
      StopIsGranted(read, ctx, chain, e, k, strike);
    }
    g := PickWished(read, ctx, chain, e, wishes);
    StopsWhereWished(ctx, Legs(g, ctx, e), k);
  }

  lemma StopsWhereWished(ctx: Context, legs: seq<Listing>, k: nat)
    requires |legs| == |ctx.strikes| && k < |legs| && ctx.strikes[k] !in ctx.strikes[..k]
    requires forall i :: 0 <= i < |legs| ==> Grants(ctx, StopWishes(ctx.strikes, k)(ctx.strikes[i]), legs[i])
    ensures StopsAt(ctx, legs, k) && !Priced(legs[k])
  {
    forall i | 0 <= i < k ensures Good(ctx, legs[i]) {
      assert ctx.strikes[..k][i] == ctx.strikes[i];
      assert Grants(ctx, StopWishes(ctx.strikes, k)(ctx.strikes[i]), legs[i]);
    }
    assert Grants(ctx, StopWishes(ctx.strikes, k)(ctx.strikes[k]), legs[k]);
  }

  /** Two given listings at two strikes, good ones elsewhere. */
  function PairWishes(a: Listing, s: nat, b: Listing, t: nat): nat -> Wish {
    (strike: nat) => if strike == s then Exactly(a) else if strike == t then Exactly(b) else IsGood
  }

  lemma PairIsGranted(read: Reader, ctx: Context, chain: seq<Listing>, e: nat,
                      a: Listing, s: nat, b: Listing, t: nat, strike: nat)
    requires !NeverNarrow(read, ctx, chain, e) && Apart(read, ctx, chain, e, a, s, b, t) && strike in ctx.strikes
    ensures CanGrant(read, ctx, chain, e, PairWishes(a, s, b, t), strike)
  {
    assert HasGood(read, ctx, chain, e, strike);
    var l :| l in chain && Fits(read, ctx, l, Slot(e, strike)) && Good(ctx, l);
    var granted := if strike == s then a else if strike == t then b else l;
    assert Grants(ctx, PairWishes(a, s, b, t)(strike), granted);
  }

  lemma ApartWhereWished(ctx: Context, legs: seq<Listing>, a: Listing, s: nat, b: Listing, t: nat)
    requires |legs| == |ctx.strikes| && s in ctx.strikes && t in ctx.strikes && s != t
    requires Good(ctx, a) && Good(ctx, b) && a.quoteAt - b.quoteAt > SYNCHRONY
    requires forall i :: 0 <= i < |legs| ==> Grants(ctx, PairWishes(a, s, b, t)(ctx.strikes[i]), legs[i])
    ensures AllNarrow(ctx, legs) && !Synchronized(legs)
  {
    forall i | 0 <= i < |legs| ensures Good(ctx, legs[i]) {
      assert Grants(ctx, PairWishes(a, s, b, t)(ctx.strikes[i]), legs[i]);
    }
    var i :| 0 <= i < |legs| && ctx.strikes[i] == s;
    var j :| 0 <= j < |legs| && ctx.strikes[j] == t;
    assert Grants(ctx, PairWishes(a, s, b, t)(s), legs[i]) && Grants(ctx, PairWishes(a, s, b, t)(t), legs[j]);
    assert legs[i].quoteAt - legs[j].quoteAt > SYNCHRONY;
  }

  lemma ApartIsReached(read: Reader, ctx: Context, chain: seq<Listing>, e: nat, a: Listing, s: nat, b: Listing, t: nat)
    returns (g: Groups)
    requires Complete(Filed(read, ctx, chain), ctx, e) && !NeverNarrow(read, ctx, chain, e)
    requires Apart(read, ctx, chain, e, a, s, b, t)
    ensures GroupsOf(read, ctx, chain, g) && Complete(g, ctx, e) && UnsoundLegs(ctx, Legs(g, ctx, e))
  {
    var wishes := PairWishes(a, s, b, t);
    forall strike | strike in ctx.strikes ensures CanGrant(read, ctx, chain, e, wishes, strike) {
      PairIsGranted(read, ctx, chain, e, a, s, b, t, strike);
    }
    g := PickWished(read, ctx, chain, e, wishes);
    ApartWhereWished(ctx, Legs(g, ctx, e), a, s, b, t);
  }

  /** Some choice of listings makes an expiration unsound exactly when it is risky. */
  lemma RiskyExactly(read: Reader, ctx: Context, chain: seq<Listing>, e: nat)
    requires Complete(Filed(read, ctx, chain), ctx, e)
    ensures Risky(read, ctx, chain, e) <==>
              exists g :: GroupsOf(read, ctx, chain, g) && Complete(g, ctx, e) && UnsoundLegs(ctx, Legs(g, ctx, e))
  {
    if k: nat :| ReachesUnpriced(read, ctx, chain, e, k) {
      var g := UnpricedIsReached(read, ctx, chain, e, k);
    } else if Risky(read, ctx, chain, e) {
      var a, s, b, t :| Apart(read, ctx, chain, e, a, s, b, t);
      var g := ApartIsReached(read, ctx, chain, e, a, s, b, t);
    }
    if g :| GroupsOf(read, ctx, chain, g) && Complete(g, ctx, e) && UnsoundLegs(ctx, Legs(g, ctx, e)) {
      UnsoundIsRisky(read, ctx, chain, g, e);
    }
  }

  /** No choice of listings fails exactly when adjusted contracts are not all there is, the contract records
      cover every choice, and no candidate is risky. */
  lemma NoChoiceFailsExactly(read: Reader, ctx: Context, chain: seq<Listing>)
    requires ctx.strikes != []
    ensures var candidates := Candidates(Filed(read, ctx, chain), ctx);
            NoChoiceFails(read, ctx, chain) <==>
              && (candidates == [] ==> !SawAdjusted(read, chain))
              && (candidates != [] ==> forall g :: GroupsOf(read, ctx, chain, g) ==> Covered(g, ctx))
              && (forall e :: e in candidates ==> !Risky(read, ctx, chain, e))
  {
    var f := Filed(read, ctx, chain);
    FiledIsGrouped(read, ctx, chain);
    CandidatesAre(f, ctx);
    forall g | GroupsOf(read, ctx, chain, g) ensures Candidates(g, ctx) == Candidates(f, ctx) {
      SameKeys(read, ctx, chain, g, f);
    }
    forall e | e in Candidates(f, ctx)
      ensures Risky(read, ctx, chain, e) <==>
                exists g :: GroupsOf(read, ctx, chain, g) && Complete(g, ctx, e) && UnsoundLegs(ctx, Legs(g, ctx, e))
    {
      RiskyExactly(read, ctx, chain, e);
    }
  }

  /** For a chain with unique slots neither acceptance nor the offers and their order depend on the order
      of the chain. */
  lemma SelectionForgetsOrder(read: Reader, ctx: Context, a: seq<Listing>, b: seq<Listing>)
    requires SlotUnique(read, ctx, a) && multiset(a) == multiset(b)
    ensures Selects(read, ctx, a) <==> Selects(read, ctx, b)
    ensures ctx.strikes != [] ==> Selected(read, ctx, a) == Selected(read, ctx, b)
    ensures forall x, y :: Offers(Filed(read, ctx, a), ctx, x) && Offers(Filed(read, ctx, b), ctx, y) ==> x == y
  {
    FilingForgetsOrderExactly(read, ctx, a);
    SameMembers(a, b);
    AdjustedForgetsOrder(read, a, b);
    if ctx.strikes != [] {
      UniqueIsOrderFree(read, ctx, a);
    }
    forall x, y | Offers(Filed(read, ctx, a), ctx, x) && Offers(Filed(read, ctx, b), ctx, y) ensures x == y {
      OffersDetermined(Filed(read, ctx, a), ctx, x, y);
    }
  }

  /** With unique slots there is one choice of listings. */
  lemma UniqueIsOrderFree(read: Reader, ctx: Context, chain: seq<Listing>)
    requires ctx.strikes != [] && SlotUnique(read, ctx, chain)
    ensures SelectionOrderFree(read, ctx, chain)
  {
    var f := Filed(read, ctx, chain);
    FiledIsGrouped(read, ctx, chain);
    forall g | GroupsOf(read, ctx, chain, g) ensures g == f {
      GroupsForgetOrder(read, ctx, chain, chain, g, f);
    }
    SelectionForgetsOrderExactly(read, ctx, chain);
  }
}

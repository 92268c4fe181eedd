/** Memoised chain resolution, the algorithm shared by `_resolve_links`, `hardlink_bytes` and
    `resolve_link`.  A graph has stored values (`base`) and names that stand for another name
    (`next`); a hop either names a target or escapes the archive.

    The reference meaning is `Walk`: follow one target at a time. */
module Chains {
  import opened Common

  datatype Hop<+K> = To(target: K) | Escape

  datatype Failure = Unresolvable | LinkEscapes

  datatype Graph<K(==), +V> = Graph(base: map<K, V>, next: map<K, Hop<K>>)

  predicate Moves<K, V>(g: Graph<K, V>, k: K) {
    k !in g.base && k in g.next && g.next[k].To?
  }

  /** The name reached after exactly `n` hops, if the chain is that long. */
  ghost function Walk<K, V>(g: Graph<K, V>, start: K, n: nat): Option<K> {
    if n == 0 then Some(start)
    else
      match Walk(g, start, n - 1)
      case None => None
      case Some(k) => if Moves(g, k) then Some(g.next[k].target) else None
  }

  ghost predicate Lands<K, V>(g: Graph<K, V>, start: K, n: nat, v: V) {
    Walk(g, start, n).Some? && Walk(g, start, n).value in g.base && g.base[Walk(g, start, n).value] == v
  }

  ghost predicate Resolves<K, V>(g: Graph<K, V>, start: K, v: V) {
    exists n: nat :: Lands(g, start, n, v)
  }

  ghost predicate Succeeds<K, V>(g: Graph<K, V>, start: K) {
    exists n: nat :: Walk(g, start, n).Some? && Walk(g, start, n).value in g.base
  }

  /** After `n` hops the chain reaches a name that is neither stored nor a link. */
  ghost predicate DanglesAt<K, V>(g: Graph<K, V>, start: K, n: nat) {
    Walk(g, start, n).Some? && Walk(g, start, n).value !in g.base && Walk(g, start, n).value !in g.next
  }

  ghost predicate EscapesAt<K, V>(g: Graph<K, V>, start: K, n: nat) {
    && Walk(g, start, n).Some?
    && Walk(g, start, n).value !in g.base
    && Walk(g, start, n).value in g.next
    && g.next[Walk(g, start, n).value].Escape?
  }

  ghost predicate CyclesAt<K, V>(g: Graph<K, V>, start: K, i: nat, j: nat) {
    i < j && Walk(g, start, i).Some? && Walk(g, start, i) == Walk(g, start, j)
  }

  ghost predicate Dangles<K, V>(g: Graph<K, V>, start: K) {
    exists n: nat :: DanglesAt(g, start, n)
  }

  ghost predicate Escapes<K, V>(g: Graph<K, V>, start: K) {
    exists n: nat :: EscapesAt(g, start, n)
  }

  ghost predicate Cycles<K, V>(g: Graph<K, V>, start: K) {
    exists i: nat, j: nat :: CyclesAt(g, start, i, j)
  }

  ghost predicate FailsWith<K, V>(g: Graph<K, V>, start: K, f: Failure) {
    if f == LinkEscapes then Escapes(g, start) else Dangles(g, start) || Cycles(g, start)
  }

  // ---- Walking ----

  lemma {:induction false} WalkFront<K, V>(g: Graph<K, V>, start: K, n: nat)
    requires Moves(g, start)
    ensures Walk(g, start, n + 1) == Walk(g, g.next[start].target, n)
  {
    if n == 0 {
      assert Walk(g, start, 1) == Some(g.next[start].target);
    } else {
      WalkFront(g, start, n - 1);
    }
  }

  lemma {:induction false} WalkDefinedBefore<K, V>(g: Graph<K, V>, start: K, m: nat, n: nat)
    requires m <= n && Walk(g, start, n).Some?
    ensures Walk(g, start, m).Some?
    ensures m < n ==> Moves(g, Walk(g, start, m).value)
    decreases n
  {
    if m < n {
      WalkDefinedBefore(g, start, m, n - 1);
    }
  }

  lemma {:induction false} WalkRepeats<K, V>(g: Graph<K, V>, start: K, i: nat, j: nat, t: nat)
    requires Walk(g, start, i) == Walk(g, start, j)
    ensures Walk(g, start, i + t) == Walk(g, start, j + t)
  {
    if t > 0 {
      WalkRepeats(g, start, i, j, t - 1);
    }
  }

  /** Graphs with the same links that stop at the same links are walked alike. */
  lemma {:induction false} WalksAlike<K, V>(g: Graph<K, V>, h: Graph<K, V>, start: K, n: nat)
    requires g.next == h.next
    requires forall k :: k in g.next ==> (k in g.base <==> k in h.base)
    ensures Walk(g, start, n) == Walk(h, start, n)
  {
    if n > 0 {
      WalksAlike(g, h, start, n - 1);
    }
  }

  /** A chain that lands does nothing else: no second value, no dangling, escaping or cyclic end. */
  lemma {:induction false} LandingIsFinal<K, V>(g: Graph<K, V>, start: K, v: V)
    requires Resolves(g, start, v)
    ensures forall w :: Resolves(g, start, w) ==> w == v
    ensures !Dangles(g, start) && !Escapes(g, start) && !Cycles(g, start)
  {
    var n: nat :| Lands(g, start, n, v);
    forall m: nat | Walk(g, start, m).Some? && !Moves(g, Walk(g, start, m).value)
      ensures m == n
    {
      if m < n {
        WalkDefinedBefore(g, start, m, n);
      } else if n < m {
        WalkDefinedBefore(g, start, n, m);
      }
    }
    if Cycles(g, start) {
      var i: nat, j: nat :| CyclesAt(g, start, i, j);
      if j <= n {
        WalkRepeats(g, start, i, j, n - j);
      } else {
        WalkDefinedBefore(g, start, n, j);
      }
    }
  }

  lemma AllSucceed<K, V>(g: Graph<K, V>, memo: map<K, V>)
    requires g.next.Keys <= memo.Keys
    requires forall k {:trigger Resolves(g, k, memo[k])} :: k in memo ==> Resolves(g, k, memo[k])
    ensures forall k {:trigger Succeeds(g, k)} :: k in g.next ==> Succeeds(g, k)
  {
    forall k | k in g.next ensures Succeeds(g, k) {
      assert Resolves(g, k, memo[k]);
      var n: nat :| Lands(g, k, n, memo[k]);
    }
  }

  /** No name both lands and fails, so acceptance does not depend on the order of the names. */
  lemma FailureIsExclusive<K, V>(g: Graph<K, V>, start: K, f: Failure)
    requires FailsWith(g, start, f)
    ensures !Succeeds(g, start)
  {
    if Succeeds(g, start) {
      var n: nat :| Walk(g, start, n).Some? && Walk(g, start, n).value in g.base;
      assert Lands(g, start, n, g.base[Walk(g, start, n).value]);
      LandingIsFinal(g, start, g.base[Walk(g, start, n).value]);
    }
  }

  lemma LandingSucceeds<K, V>(g: Graph<K, V>, start: K, v: V)
    requires Resolves(g, start, v)
    ensures Succeeds(g, start)
  {
    var n: nat :| Lands(g, start, n, v);
  }

  lemma StepResolves<K, V>(g: Graph<K, V>, k: K, v: V)
    requires Moves(g, k) && Resolves(g, g.next[k].target, v)
    ensures Resolves(g, k, v)
  {
    var n: nat :| Lands(g, g.next[k].target, n, v);
    WalkFront(g, k, n);
    assert Lands(g, k, n + 1, v);
  }

  lemma StepFails<K, V>(g: Graph<K, V>, k: K, f: Failure)
    requires Moves(g, k) && FailsWith(g, g.next[k].target, f)
    ensures FailsWith(g, k, f)
  {
    var t := g.next[k].target;
    if f == LinkEscapes {
      var n: nat :| EscapesAt(g, t, n);
      WalkFront(g, k, n);
      assert EscapesAt(g, k, n + 1);
    } else if Dangles(g, t) {
      var n: nat :| DanglesAt(g, t, n);
      WalkFront(g, k, n);
      assert DanglesAt(g, k, n + 1);
    } else {
      var i: nat, j: nat :| CyclesAt(g, t, i, j);
      WalkFront(g, k, i);
      WalkFront(g, k, j);
      assert CyclesAt(g, k, i + 1, j + 1);
    }
  }

  // ---- The memoised resolver ----

  /** Every stored value and every memoised one is what following the chain gives. */
  ghost predicate MemoSound<K, V>(g: Graph<K, V>, memo: map<K, V>) {
    && g.base.Keys <= memo.Keys <= g.base.Keys + g.next.Keys
    && forall k {:trigger Resolves(g, k, memo[k])} :: k in memo ==> Resolves(g, k, memo[k])
  }

  ghost predicate LeadsTo<K, V>(g: Graph<K, V>, from: K, to: K) {
    exists n: nat :: n > 0 && Walk(g, from, n) == Some(to)
  }

  lemma ExtendTrail<K, V>(g: Graph<K, V>, visiting: set<K>, k: K)
    requires Moves(g, k)
    requires forall u :: u in visiting ==> LeadsTo(g, u, k)
    ensures forall u :: u in visiting + {k} ==> LeadsTo(g, u, g.next[k].target)
  {
    forall u | u in visiting + {k} ensures LeadsTo(g, u, g.next[k].target) {
      if u in visiting {
        var n: nat :| n > 0 && Walk(g, u, n) == Some(k);
        assert Walk(g, u, n + 1) == Some(g.next[k].target);
      } else {
        assert Walk(g, k, 1) == Some(g.next[k].target);
      }
    }
  }

  lemma BaseResolves<K, V>(g: Graph<K, V>)
    ensures MemoSound(g, g.base)
  {
    forall k | k in g.base ensures Resolves(g, k, g.base[k]) {
      assert Lands(g, k, 0, g.base[k]);
    }
  }

  lemma RevisitCycles<K, V>(g: Graph<K, V>, name: K)
    requires LeadsTo(g, name, name)
    ensures FailsWith(g, name, Unresolvable)
  {
    var n: nat :| n > 0 && Walk(g, name, n) == Some(name);
    assert CyclesAt(g, name, 0, n);
  }

  lemma StopsHere<K, V>(g: Graph<K, V>, name: K)
    requires name !in g.base
    requires name in g.next ==> g.next[name].Escape?
    ensures FailsWith(g, name, if name in g.next then LinkEscapes else Unresolvable)
  {
    if name in g.next {
      assert EscapesAt(g, name, 0);
    } else {
      assert DanglesAt(g, name, 0);
    }
  }

  lemma Remember<K, V>(g: Graph<K, V>, memo: map<K, V>, name: K, v: V)
    requires MemoSound(g, memo) && name in g.next && Resolves(g, name, v)
    ensures MemoSound(g, memo[name := v])
    ensures name in memo ==> memo[name] == v
  {
    if name in memo {
      assert Resolves(g, name, memo[name]);
      LandingIsFinal(g, name, v);
    }
  }

  ghost predicate MustKeep<K, V(!new)>(g: Graph<K, V>, k: K, keep: V -> bool) {
    forall v :: Resolves(g, k, v) ==> keep(v)
  }

  /** Two sound memos never disagree. */
  lemma MemosAgree<K, V>(g: Graph<K, V>, a: map<K, V>, b: map<K, V>, k: K)
    requires MemoSound(g, a) && MemoSound(g, b) && k in a && k in b
    ensures a[k] == b[k]
  {
    assert Resolves(g, k, a[k]) && Resolves(g, k, b[k]);
    LandingIsFinal(g, k, a[k]);
  }

  /** The recursive resolver: `memo` is the shared dictionary, `visiting` the names under way.
      The three callers differ in which values they remember: `_resolve_links` keeps all of them,
      `resolve_link` only bytes, `hardlink_bytes` none. */
  method Resolve<K(==), V>(g: Graph<K, V>, memo: map<K, V>, name: K, visiting: set<K>, keep: V -> bool)
    returns (r: Result<V, Failure>, memo': map<K, V>)
    requires MemoSound(g, memo)
    requires visiting <= g.next.Keys
    requires forall u :: u in visiting ==> LeadsTo(g, u, name)
    ensures MemoSound(g, memo')
    ensures memo.Keys <= memo'.Keys
    ensures r.Ok? ==> Resolves(g, name, r.value) && (keep(r.value) ==> name in memo')
    ensures r.Err? ==> FailsWith(g, name, r.error)
    ensures (forall v :: !keep(v)) ==> memo' == memo
    decreases g.next.Keys - visiting
  {
    if name in memo {
      assert Resolves(g, name, memo[name]);
      return Ok(memo[name]), memo;
    }
    if name in visiting || name !in g.next {
      if name in visiting {
        RevisitCycles(g, name);
      } else {
        StopsHere(g, name);
      }
      return Err(Unresolvable), memo;
    }
    match g.next[name]
    case Escape =>
      StopsHere(g, name);
      return Err(LinkEscapes), memo;
    case To(target) =>
      ExtendTrail(g, visiting, name);
      r, memo' := Resolve(g, memo, target, visiting + {name}, keep);
      if r.Ok? {
        StepResolves(g, name, r.value);
        if keep(r.value) {
          Remember(g, memo', name, r.value);
          memo' := memo'[name := r.value];
        }
      } else {
        StepFails(g, name, r.error);
      }
  }

  /** Resolve every link, in whatever order the collection yields its names. */
  method ResolveAll<K(==), V(!new)>(g: Graph<K, V>, keep: V -> bool) returns (r: Result<map<K, V>, Failure>)
    ensures r.Ok? <==> forall k {:trigger Succeeds(g, k)} :: k in g.next ==> Succeeds(g, k)
    ensures r.Ok? ==> MemoSound(g, r.value)
    ensures r.Ok? ==> forall k :: k in g.next && MustKeep(g, k, keep) ==> k in r.value
    ensures r.Err? ==> exists k {:trigger FailsWith(g, k, r.error)} :: k in g.next && FailsWith(g, k, r.error)
  {
    BaseResolves(g);
    var memo := g.base;
    var pending := g.next.Keys;
    while pending != {}
      invariant MemoSound(g, memo)
      invariant pending <= g.next.Keys
      invariant forall k {:trigger Succeeds(g, k)} :: k in g.next && k !in pending ==> Succeeds(g, k)
      invariant forall k :: k in g.next && k !in pending && MustKeep(g, k, keep) ==> k in memo
      decreases pending
    {
      var name :| name in pending;
      var one;
      one, memo := Resolve(g, memo, name, {}, keep);
      if one.Err? {
        FailureIsExclusive(g, name, one.error);
        return Err(one.error);
      }
      LandingSucceeds(g, name, one.value);
      pending := pending - {name};
    }
    return Ok(memo);
  }

  /** Resolve every link without recursion-level memory, storing each root name's value as it is
      found, as the hardlink loop does; later roots may stop at an earlier one. */
  method ResolveRoots<K(==), V>(g: Graph<K, V>) returns (r: Result<map<K, V>, Failure>)
    ensures r.Ok? <==> forall k {:trigger Succeeds(g, k)} :: k in g.next ==> Succeeds(g, k)
    ensures r.Ok? ==> MemoSound(g, r.value) && r.value.Keys == g.base.Keys + g.next.Keys
    ensures r.Err? ==> exists k {:trigger FailsWith(g, k, r.error)} :: k in g.next && FailsWith(g, k, r.error)
  {
    BaseResolves(g);
    var memo := g.base;
    var pending := g.next.Keys;
    while pending != {}
      invariant MemoSound(g, memo)
      invariant pending <= g.next.Keys
      invariant g.next.Keys - pending <= memo.Keys
      decreases pending
    {
      var name :| name in pending;
      var one, same := Resolve(g, memo, name, {}, (_: V) => false);
      if one.Err? {
        FailureIsExclusive(g, name, one.error);
        return Err(one.error);
      }
      Remember(g, memo, name, one.value);
      memo := memo[name := one.value];
      pending := pending - {name};
    }
    AllSucceed(g, memo);
    return Ok(memo);
  }
}

/** Least sets: what a worklist over a successor function is meant to compute. */
module Reachability {

  /** `d` is reached from the roots in exactly `n` successor steps. */
  ghost predicate ReachIn<N(!new)>(roots: seq<N>, succ: N -> seq<N>, d: N, n: nat) {
    if n == 0 then d in roots else exists e :: ReachIn(roots, succ, e, n - 1) && d in succ(e)
  }

  ghost predicate Reachable<N(!new)>(roots: seq<N>, succ: N -> seq<N>, d: N) {
    exists n: nat :: ReachIn(roots, succ, d, n)
  }

  /** `s` contains the roots and the successors of its members. */
  ghost predicate Closed<N(!new)>(roots: seq<N>, succ: N -> seq<N>, s: iset<N>) {
    && (forall d :: d in roots ==> d in s)
    && (forall d, e :: d in s && e in succ(d) ==> e in s)
  }

  lemma RootIsReachable<N(!new)>(roots: seq<N>, succ: N -> seq<N>, d: N)
    requires d in roots
    ensures Reachable(roots, succ, d)
  {
    assert ReachIn(roots, succ, d, 0);
  }

  lemma SuccessorIsReachable<N(!new)>(roots: seq<N>, succ: N -> seq<N>, d: N, e: N)
    requires Reachable(roots, succ, d) && e in succ(d)
    ensures Reachable(roots, succ, e)
  {
    var n: nat :| ReachIn(roots, succ, d, n);
    assert ReachIn(roots, succ, e, n + 1);
  }

  lemma {:induction false} ClosedContains<N(!new)>(roots: seq<N>, succ: N -> seq<N>, s: iset<N>, d: N, n: nat)
    requires Closed(roots, succ, s) && ReachIn(roots, succ, d, n)
    ensures d in s
  {
    if n > 0 {
      var e :| ReachIn(roots, succ, e, n - 1) && d in succ(e);
      ClosedContains(roots, succ, s, e, n - 1);
    }
  }

  /** The reachable nodes are the least closed set. */
  lemma ReachableIsLeast<N(!new)>(roots: seq<N>, succ: N -> seq<N>, s: iset<N>)
    requires Closed(roots, succ, s)
    ensures Closed(roots, succ, iset d | Reachable(roots, succ, d))
    ensures (iset d | Reachable(roots, succ, d)) <= s
  {
    forall d | d in roots ensures Reachable(roots, succ, d) {
      RootIsReachable(roots, succ, d);
    }
    forall d, e | Reachable(roots, succ, d) && e in succ(d) ensures Reachable(roots, succ, e) {
      SuccessorIsReachable(roots, succ, d, e);
    }
    forall d | Reachable(roots, succ, d) ensures d in s {
      var n: nat :| ReachIn(roots, succ, d, n);
      ClosedContains(roots, succ, s, d, n);
    }
  }

  lemma {:induction false} ReachFromPart<N(!new)>(a: seq<N>, b: seq<N>, succ: N -> seq<N>, d: N, n: nat)
    ensures ReachIn(a + b, succ, d, n) <==> ReachIn(a, succ, d, n) || ReachIn(b, succ, d, n)
  {
    if n > 0 {
      if ReachIn(a + b, succ, d, n) {
        var e :| ReachIn(a + b, succ, e, n - 1) && d in succ(e);
        ReachFromPart(a, b, succ, e, n - 1);
      }
      if ReachIn(a, succ, d, n) {
        var e :| ReachIn(a, succ, e, n - 1) && d in succ(e);
        ReachFromPart(a, b, succ, e, n - 1);
      }
      if ReachIn(b, succ, d, n) {
        var e :| ReachIn(b, succ, e, n - 1) && d in succ(e);
        ReachFromPart(a, b, succ, e, n - 1);
      }
    }
  }

  /** Closure distributes over the union of the roots. */
  lemma ClosureOfUnion<N(!new)>(a: seq<N>, b: seq<N>, succ: N -> seq<N>, d: N)
    ensures Reachable(a + b, succ, d) <==> Reachable(a, succ, d) || Reachable(b, succ, d)
  {
    if Reachable(a + b, succ, d) {
      var n: nat :| ReachIn(a + b, succ, d, n);
      ReachFromPart(a, b, succ, d, n);
    }
    if Reachable(a, succ, d) {
      var n: nat :| ReachIn(a, succ, d, n);
      ReachFromPart(a, b, succ, d, n);
    }
    if Reachable(b, succ, d) {
      var n: nat :| ReachIn(b, succ, d, n);
      ReachFromPart(a, b, succ, d, n);
    }
  }

  // ---- The invariant that both worklists keep ----

  ghost predicate Frontier<N(!new)>(roots: seq<N>, succ: N -> seq<N>, visited: set<N>, pending: seq<N>) {
    && (forall d :: d in visited || d in pending ==> Reachable(roots, succ, d))
    && (forall d :: d in roots ==> d in visited || d in pending)
    && (forall d, e :: d in visited && e in succ(d) ==> e in visited || e in pending)
  }

  lemma FrontierStart<N(!new)>(roots: seq<N>, succ: N -> seq<N>)
    ensures Frontier(roots, succ, {}, roots)
  {
    forall d | d in roots ensures Reachable(roots, succ, d) {
      RootIsReachable(roots, succ, d);
    }
  }

  lemma FrontierSkip<N(!new)>(roots: seq<N>, succ: N -> seq<N>, visited: set<N>, rest: seq<N>, d: N)
    requires Frontier(roots, succ, visited, rest + [d]) && d in visited
    ensures Frontier(roots, succ, visited, rest)
  {
    assert forall e :: e in rest + [d] <==> e in rest || e == d;
  }

  lemma FrontierVisit<N(!new)>(roots: seq<N>, succ: N -> seq<N>, visited: set<N>, rest: seq<N>, d: N)
    requires Frontier(roots, succ, visited, rest + [d])
    ensures Reachable(roots, succ, d)
    ensures Frontier(roots, succ, visited + {d}, rest + succ(d))
  {
    assert forall e :: e in rest + [d] <==> e in rest || e == d;
    assert forall e :: e in rest + succ(d) <==> e in rest || e in succ(d);
    assert d in rest + [d];
    forall e | e in succ(d) ensures Reachable(roots, succ, e) {
      SuccessorIsReachable(roots, succ, d, e);
    }
  }

  lemma FrontierDone<N(!new)>(roots: seq<N>, succ: N -> seq<N>, visited: set<N>)
    requires Frontier(roots, succ, visited, [])
    ensures forall d :: d in visited <==> Reachable(roots, succ, d)
  {
    var s := iset d | d in visited;
    assert Closed(roots, succ, s);
    ReachableIsLeast(roots, succ, s);
    forall d | Reachable(roots, succ, d) ensures d in visited {
      assert d in (iset e | Reachable(roots, succ, e));
      assert d in s;
    }
  }
}

/** The directory loop visits a set, so its order is arbitrary.  Stored paths never depend on it;
    the remembered directories do, exactly when a lower file or link becomes a directory and the
    same layer lists another directory below it. */
module OciOrder {
  import opened Paths
  import opened OciFold

  ghost predicate DirectoryUnderDisplaced(stored: set<Path>, names: set<Path>) {
    exists n, m :: n in names && m in names && n in stored && n < m
  }

  ghost predicate OrderFree(s: DirectoryState, names: set<Path>) {
    forall a, b :: IsOrder(a, names) && IsOrder(b, names) ==>
      DirectoryRun(s, a).directories == DirectoryRun(s, b).directories
  }

  ghost predicate Distinct(order: seq<Path>) {
    forall i, j :: 0 <= i < j < |order| ==> order[i] != order[j]
  }

  /** What is left stored after any run: the part no displaced content covers. */
  lemma {:induction false} RunStored(s: DirectoryState, order: seq<Path>, p: Path)
    ensures p in DirectoryRun(s, order).stored <==>
              p in s.stored && !exists n :: n in order && n in s.stored && n <= p
    decreases |order|
  {
    if order == [] {
      return;
    }
    var init, name := order[..|order| - 1], order[|order| - 1];
    assert order == init + [name];
    RunStored(s, init, p);
    RunStored(s, init, name);
    if p in s.stored && name <= p && name in s.stored && name !in DirectoryRun(s, init).stored {
      var n :| n in init && n in s.stored && n <= name;
      assert n <= p;
    }
  }

  lemma {:induction false} RunWithoutOverlap(s: DirectoryState, order: seq<Path>, p: Path)
    requires Distinct(order)
    requires forall n, m :: n in order && m in order && n in s.stored ==> !(n < m)
    ensures p in DirectoryRun(s, order).directories <==>
              p in order || (p in s.directories && !exists n :: n in order && n in s.stored && n <= p)
    decreases |order|
  {
    if order == [] {
      return;
    }
    var init, name := order[..|order| - 1], order[|order| - 1];
    assert order == init + [name];
    assert name !in init;
    assert forall q :: q in init ==> q in order;
    RunWithoutOverlap(s, init, p);
    RunStored(s, init, name);
    if name <= p && p in init {
      assert name < p;
    }
  }

  /** Listed first, a directory below a displaced path is forgotten. */
  lemma {:induction false} FirstIsForgotten(s: DirectoryState, n: Path, m: Path, rest: seq<Path>)
    requires n in s.stored && n < m && m !in rest
    ensures m in DirectoryRun(s, [m] + rest).directories ==>
              n !in rest && n in DirectoryRun(s, [m] + rest).stored
    decreases |rest|
  {
    if rest == [] {
      assert [m] + rest == [m] && [m][..0] == [];
      assert DirectoryRun(s, [m]) == DirectoryStep(DirectoryRun(s, []), m);
    } else {
      var init, name := rest[..|rest| - 1], rest[|rest| - 1];
      assert rest == init + [name];
      assert [m] + rest == [m] + init + [name];
      RunGrows(s, [m] + init, name);
      FirstIsForgotten(s, n, m, init);
    }
  }

  lemma {:induction false} SetHasOrder(names: set<Path>) returns (order: seq<Path>)
    ensures IsOrder(order, names)
  {
    if names == {} {
      return [];
    }
    var name :| name in names;
    var init := SetHasOrder(names - {name});
    OrderGrows(init, names - {name}, name);
    assert names - {name} + {name} == names;
    order := init + [name];
  }

  /** Two orders of the same names that remember different directories. */
  lemma OrdersThatDiffer(s: DirectoryState, names: set<Path>, n: Path, m: Path)
    returns (first: seq<Path>, last: seq<Path>)
    requires n in names && m in names && n in s.stored && n < m
    ensures IsOrder(first, names) && IsOrder(last, names)
    ensures m !in DirectoryRun(s, first).directories && m in DirectoryRun(s, last).directories
  {
    var rest := SetHasOrder(names - {m});
    OrderGrows(rest, names - {m}, m);
    assert names - {m} + {m} == names;
    first, last := [m] + rest, rest + [m];
    FirstIsForgotten(s, n, m, rest);
    RunGrows(s, rest, m);
    forall i, j | 0 <= i < j < |first| ensures first[i] != first[j] {
      if i == 0 {
        assert first[j] == rest[j - 1] && rest[j - 1] in rest;
      }
    }
  }

  /** Exactly when the remembered directories do not depend on the order. */
  lemma DirectoriesOrderFreeExactly(s: DirectoryState, names: set<Path>)
    ensures OrderFree(s, names) <==> !DirectoryUnderDisplaced(s.stored, names)
  {
    if DirectoryUnderDisplaced(s.stored, names) {
      var n, m :| n in names && m in names && n in s.stored && n < m;
      var first, last := OrdersThatDiffer(s, names, n, m);
      assert DirectoryRun(s, first).directories != DirectoryRun(s, last).directories;
    } else {
      forall a, b | IsOrder(a, names) && IsOrder(b, names)
        ensures DirectoryRun(s, a).directories == DirectoryRun(s, b).directories
      {
        forall p ensures p in DirectoryRun(s, a).directories <==> p in DirectoryRun(s, b).directories {
          RunWithoutOverlap(s, a, p);
          RunWithoutOverlap(s, b, p);
        }
      }
    }
  }

  /** The stored paths after the loop are the same for every order. */
  lemma StoredIsOrderFree(s: DirectoryState, names: set<Path>, a: seq<Path>, b: seq<Path>)
    requires IsOrder(a, names) && IsOrder(b, names)
    ensures DirectoryRun(s, a).stored == DirectoryRun(s, b).stored
  {
    forall p ensures p in DirectoryRun(s, a).stored <==> p in DirectoryRun(s, b).stored {
      RunStored(s, a, p);
      RunStored(s, b, p);
    }
  }

  // ---- The orders that remember most and least ----

  /** Content in a proper ancestor that the layer turns into a directory threatens the directory `d`. */
  ghost predicate Overhung(stored: set<Path>, names: set<Path>, d: Path) {
    exists n :: n in names && n in stored && n < d
  }

  /** A directory that is not listed is kept or dropped whatever the order. */
  lemma {:induction false} RunOther(s: DirectoryState, order: seq<Path>, d: Path)
    requires d !in order
    ensures d in DirectoryRun(s, order).directories <==>
              d in s.directories && !exists n :: n in order && n in s.stored && n <= d
    decreases |order|
  {
    if order == [] {
      return;
    }
    var init, name := order[..|order| - 1], order[|order| - 1];
    assert order == init + [name];
    RunOther(s, init, d);
    RunStored(s, init, name);
    if name in s.stored && name !in DirectoryRun(s, init).stored && name <= d {
      var n :| n in init && n in s.stored && n <= name;
      assert n <= d;
    }
  }

  /** A listed directory that nothing threatens is remembered whatever the order. */
  lemma {:induction false} RunOwn(s: DirectoryState, order: seq<Path>, d: Path)
    requires Distinct(order) && d in order && !exists n :: n in order && n in s.stored && n < d
    ensures d in DirectoryRun(s, order).directories
    decreases |order|
  {
    var init, name := order[..|order| - 1], order[|order| - 1];
    assert order == init + [name];
    if name != d {
      assert forall q :: q in init ==> q in order;
      RunOwn(s, init, d);
      RunStored(s, init, name);
    }
  }

  lemma {:induction false} LongestExists(names: set<Path>) returns (m: Path)
    requires names != {}
    ensures m in names && forall n :: n in names ==> |n| <= |m|
    decreases |names|
  {
    m :| m in names;
    if names != {m} {
      var other := LongestExists(names - {m});
      if |m| < |other| {
        m := other;
      }
    }
  }

  lemma {:induction false} ShortestExists(names: set<Path>) returns (m: Path)
    requires names != {}
    ensures m in names && forall n :: n in names ==> |m| <= |n|
    decreases |names|
  {
    m :| m in names;
    if names != {m} {
      var other := ShortestExists(names - {m});
      if |other| < |m| {
        m := other;
      }
    }
  }

  /** Visited with short names first, every listed directory is remembered. */
  lemma {:induction false} MostRemembered(s: DirectoryState, names: set<Path>) returns (order: seq<Path>)
    ensures IsOrder(order, names)
    ensures forall d :: d in names ==> d in DirectoryRun(s, order).directories
    decreases |names|
  {
    if names == {} {
      return [];
    }
    var m := LongestExists(names);
    var init := MostRemembered(s, names - {m});
    OrderGrows(init, names - {m}, m);
    assert names - {m} + {m} == names;
    RunGrows(s, init, m);
    order := init + [m];
  }

  /** Visited with long names first, no threatened directory is remembered. */
  lemma {:induction false} FewestRemembered(s: DirectoryState, names: set<Path>) returns (order: seq<Path>)
    ensures IsOrder(order, names)
    ensures forall d :: d in names && Overhung(s.stored, names, d) ==> d !in DirectoryRun(s, order).directories
    decreases |names|
  {
    if names == {} {
      return [];
    }
    var m := ShortestExists(names);
    var init := FewestRemembered(s, names - {m});
    OrderGrows(init, names - {m}, m);
    assert names - {m} + {m} == names;
    RunGrows(s, init, m);
    RunStored(s, init, m);
    order := init + [m];
    forall d | d in names && Overhung(s.stored, names, d) ensures d !in DirectoryRun(s, order).directories {
      var n :| n in names && n in s.stored && n < d;
      assert d != m;
      if n != m {
        assert n in names - {m} && Overhung(s.stored, names - {m}, d);
      }
    }
  }
}

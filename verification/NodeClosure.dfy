/** `_resolve_node`, `_node_closure` and the root handling of `_load_node_lock`. */
module NodeClosure {
  import opened Common
  import opened Reachability

  const ROOT_MARKER := "node_modules/"
  const MARKER := "/node_modules/"

  datatype Package = Package(
    identity: string,
    dependencies: seq<string>,
    optional: seq<string>,
    peers: seq<string>)

  type Lock = map<string, Package>

  // ---- Nearest enclosing node_modules ----

  predicate MarkerAt(s: string, i: int) {
    0 <= i && i + |MARKER| <= |s| && s[i..i + |MARKER|] == MARKER
  }

  /** The last place at or before `i` where the marker stands, or -1: what `rsplit` looks for. */
  function LastMarker(s: string, i: int): (r: int)
    requires i < |s|
    ensures -1 <= r <= i || (i < -1 && r == -1)
    ensures r >= 0 ==> MarkerAt(s, r)
    ensures forall k :: r < k <= i ==> !MarkerAt(s, k)
    decreases i
  {
    if i < 0 then -1 else if MarkerAt(s, i) then i else LastMarker(s, i - 1)
  }

  function Cut(base: string): (r: Option<string>)
    ensures r.Some? ==> |r.value| < |base|
  {
    var at := LastMarker(base, |base| - 1);
    if at < 0 then None else Some(base[..at])
  }

  function Candidate(base: string, name: string): string {
    if base == "" then ROOT_MARKER + name else base + MARKER + name
  }

  /** The directories whose `node_modules` is consulted from `base`, innermost first. */
  function Enclosing(base: string): (r: seq<string>)
    ensures |r| > 0 && r[0] == base && r[|r| - 1] == ""
    decreases |base|
  {
    match Cut(base)
    case None => [base, ""]
    case Some(outer) => [base] + Enclosing(outer)
  }

  /** The first candidate that the lock has. */
  function FirstPresent(lock: Lock, bases: seq<string>, name: string): Option<string> {
    if bases == [] then None
    else if Candidate(bases[0], name) in lock then Some(Candidate(bases[0], name))
    else FirstPresent(lock, bases[1..], name)
  }

  function Resolution(lock: Lock, parent: string, name: string): Option<string> {
    FirstPresent(lock, Enclosing(parent), name)
  }

  method ResolveNode(lock: Lock, parent: string, name: string) returns (r: Option<string>)
    ensures r == Resolution(lock, parent, name)
  {
    var base := parent;
    while true
      invariant Resolution(lock, parent, name) == Resolution(lock, base, name)
      decreases |base|
    {
      var candidate := Candidate(base, name);
      if candidate in lock {
        return Some(candidate);
      }
      var outer := Cut(base);
      if outer.None? {
        break;
      }
      assert Enclosing(base)[1..] == Enclosing(outer.value);
      base := outer.value;
    }
    assert Enclosing(base)[1..] == [""] && [""][1..] == [];
    assert FirstPresent(lock, [""], name) == if Candidate("", name) in lock then Some(Candidate("", name)) else None;
    var candidate := Candidate("", name);
    if candidate in lock {
      return Some(candidate);
    }
    return None;
  }

  /** The answer is the nearest: no directory nearer to the parent offers the name. */
  lemma {:induction false} FirstPresentIsNearest(lock: Lock, bases: seq<string>, name: string)
    ensures FirstPresent(lock, bases, name).Some? <==> exists i :: 0 <= i < |bases| && Candidate(bases[i], name) in lock
    ensures FirstPresent(lock, bases, name).Some? ==>
              FirstPresent(lock, bases, name).value in lock &&
              exists i :: 0 <= i < |bases| && FirstPresent(lock, bases, name).value == Candidate(bases[i], name) &&
                          forall j :: 0 <= j < i ==> Candidate(bases[j], name) !in lock
  {
    if bases != [] && Candidate(bases[0], name) !in lock {
      FirstPresentIsNearest(lock, bases[1..], name);
      if FirstPresent(lock, bases, name).Some? {
        var i :| 0 <= i < |bases[1..]| && FirstPresent(lock, bases, name).value == Candidate(bases[1..][i], name) &&
                 forall j :: 0 <= j < i ==> Candidate(bases[1..][j], name) !in lock;
        assert bases[i + 1] == bases[1..][i];
        forall j | 0 <= j < i + 1 ensures Candidate(bases[j], name) !in lock {
          assert j > 0 ==> bases[j] == bases[1..][j - 1];
        }
      }
      if exists i :: 0 <= i < |bases| && Candidate(bases[i], name) in lock {
        var i :| 0 <= i < |bases| && Candidate(bases[i], name) in lock;
        assert bases[1..][i - 1] == bases[i];
      }
    } else if bases != [] {
      assert Candidate(bases[0], name) in lock;
    }
  }

  // ---- On the paths npm writes ----

  /** A package name that cannot be taken for a `node_modules` boundary. */
  predicate CleanName(n: string) {
    n != "" && !(ROOT_MARKER <= n) && forall i :: 0 <= i < |n| ==> !MarkerAt(n, i)
  }

  /** The lock path of a package nested inside others, outermost first. */
  function Nest(names: seq<string>): string {
    if names == [] then "" else Candidate(Nest(names[..|names| - 1]), names[|names| - 1])
  }

  lemma MarkerOnSlash(prefix: string, n: string)
    requires prefix != "" && MarkerAt(prefix + n, |prefix| - 1)
    ensures ROOT_MARKER <= n
  {
    var s, k := prefix + n, |prefix| - 1;
    assert s[k..k + |MARKER|][1..] == n[..|ROOT_MARKER|];
    assert MARKER[1..] == ROOT_MARKER;
  }

  lemma NoMarkerInName(prefix: string, n: string, k: int)
    requires CleanName(n) && |prefix| - 1 <= k && prefix != "" && prefix[|prefix| - 1] == '/'
    ensures !MarkerAt(prefix + n, k)
  {
    var s := prefix + n;
    if MarkerAt(s, k) {
      if k >= |prefix| {
        assert s[k..k + |MARKER|] == n[k - |prefix|..k - |prefix| + |MARKER|];
        assert MarkerAt(n, k - |prefix|);
      } else {
        MarkerOnSlash(prefix, n);
      }
    }
  }

  /** No boundary begins inside the marker that ends a prefix. */
  lemma NoMarkerInMarker(s: string, start: nat, k: int)
    requires start + |ROOT_MARKER| <= |s| && s[start..start + |ROOT_MARKER|] == ROOT_MARKER
    requires start <= k < start + |ROOT_MARKER| - 1
    ensures !MarkerAt(s, k)
  {
    assert s[k] == s[start..start + |ROOT_MARKER|][k - start] == ROOT_MARKER[k - start] != '/';
    if k + |MARKER| <= |s| {
      assert s[k..k + |MARKER|][0] == s[k];
    }
  }

  lemma OuterOfNested(base: string, n: string)
    requires CleanName(n)
    ensures Cut(Candidate(base, n)) == if base == "" then None else Some(base)
  {
    var s := Candidate(base, n);
    var prefix := if base == "" then ROOT_MARKER else base + MARKER;
    assert s == prefix + n;
    var from := if base == "" then -1 else |base|;
    assert s[from + 1..from + 1 + |ROOT_MARKER|] == ROOT_MARKER;
    forall k | from < k < |s| ensures !MarkerAt(s, k) {
      if k >= |prefix| - 1 {
        NoMarkerInName(prefix, n, k);
      } else {
        NoMarkerInMarker(s, from + 1, k);
      }
    }
    var r := LastMarker(s, |s| - 1);
    if base != "" {
      assert s[|base|..|base| + |MARKER|] == MARKER;
      assert MarkerAt(s, |base|);
      assert s[..|base|] == base;
    }
    assert r == from;
  }

  /** From a nested package, resolution consults each enclosing package in turn, then the root. */
  lemma {:induction false} NestedLookup(names: seq<string>, k: nat)
    requires names != [] && (forall n :: n in names ==> CleanName(n)) && k <= |names|
    ensures |Enclosing(Nest(names))| == |names| + 1
    ensures Enclosing(Nest(names))[k] == Nest(names[..|names| - k])
  {
    var init, last := names[..|names| - 1], names[|names| - 1];
    OuterOfNested(Nest(init), last);
    assert names[..|names|] == names;
    if init == [] {
      assert Enclosing(Nest(names)) == [Nest(names), ""];
    } else {
      assert Nest(init) != "";
      NestedLookup(init, if k == 0 then 0 else k - 1);
      if k > 0 {
        assert init[..|init| - (k - 1)] == names[..|names| - k];
      }
    }
  }

  // ---- The worklist ----

  function Resolved(lock: Lock, parent: string, names: seq<string>): seq<string> {
    if names == [] then []
    else
      var r := Resolution(lock, parent, names[0]);
      (if r.Some? then [r.value] else []) + Resolved(lock, parent, names[1..])
  }

  /** The lock paths a package needs: dependencies and peers, and the optional ones that resolve. */
  function Needs(lock: Lock, path: string): seq<string> {
    if path !in lock then []
    else
      Resolved(lock, path, lock[path].dependencies) + Resolved(lock, path, lock[path].peers)
      + Resolved(lock, path, lock[path].optional)
  }

  function Succ(lock: Lock): string -> seq<string> {
    path => Needs(lock, path)
  }

  predicate Unresolved(lock: Lock, parent: string, names: seq<string>) {
    exists name :: name in names && Resolution(lock, parent, name).None?
  }

  /** A package with a dependency or peer that no enclosing directory offers. */
  predicate Missing(lock: Lock, path: string) {
    path in lock && (Unresolved(lock, path, lock[path].dependencies) || Unresolved(lock, path, lock[path].peers))
  }

  lemma {:induction false} ResolvedAreInLock(lock: Lock, parent: string, names: seq<string>)
    ensures forall path :: path in Resolved(lock, parent, names) ==> path in lock
  {
    if names != [] {
      FirstPresentIsNearest(lock, Enclosing(parent), names[0]);
      ResolvedAreInLock(lock, parent, names[1..]);
    }
  }

  lemma NeedsAreInLock(lock: Lock, path: string)
    ensures forall p :: p in Needs(lock, path) ==> p in lock
  {
    if path in lock {
      ResolvedAreInLock(lock, path, lock[path].dependencies);
      ResolvedAreInLock(lock, path, lock[path].peers);
      ResolvedAreInLock(lock, path, lock[path].optional);
    }
  }

  /** Resolve each name in turn; a required one that is absent stops the run. */
  method ResolveEach(lock: Lock, parent: string, names: seq<string>, required: bool) returns (r: Option<seq<string>>)
    ensures r.None? <==> required && Unresolved(lock, parent, names)
    ensures r.Some? ==> r.value == Resolved(lock, parent, names)
  {
    var found: seq<string> := [];
    var i := 0;
    while i < |names|
      invariant 0 <= i <= |names|
      invariant Resolved(lock, parent, names) == found + Resolved(lock, parent, names[i..])
      invariant required ==> forall k :: 0 <= k < i ==> Resolution(lock, parent, names[k]).Some?
    {
      var one := ResolveNode(lock, parent, names[i]);
      assert names[i..][1..] == names[i + 1..];
      if one.None? {
        if required {
          return None;
        }
      } else {
        found := found + [one.value];
      }
      i := i + 1;
    }
    return Some(found);
  }

  /** Queue what a visited package needs. */
  method Expand(lock: Lock, path: string, rest: seq<string>) returns (r: Option<seq<string>>)
    requires path in lock
    ensures r.None? <==> Missing(lock, path)
    ensures r.Some? ==> r.value == rest + Needs(lock, path)
  {
    var dependencies := ResolveEach(lock, path, lock[path].dependencies, true);
    if dependencies.None? {
      return None;
    }
    var peers := ResolveEach(lock, path, lock[path].peers, true);
    if peers.None? {
      return None;
    }
    var optional := ResolveEach(lock, path, lock[path].optional, false);
    return Some(rest + (dependencies.value + peers.value + optional.value));
  }

  ghost predicate IsClosure(lock: Lock, roots: seq<string>, identities: set<string>) {
    forall id :: id in identities <==>
      exists path :: Reachable(roots, Succ(lock), path) && path in lock && lock[path].identity == id
  }

  ghost predicate SomethingMissing(lock: Lock, roots: seq<string>) {
    exists path :: Reachable(roots, Succ(lock), path) && Missing(lock, path)
  }

  ghost predicate Progress(lock: Lock, roots: seq<string>, visited: set<string>, pending: seq<string>, result: set<string>) {
    && Frontier(roots, Succ(lock), visited, pending)
    && visited <= lock.Keys
    && (forall path :: path in pending ==> path in lock)
    && (forall path :: path in visited ==> !Missing(lock, path))
    && (forall id :: id in result <==> exists path :: path in visited && path in lock && lock[path].identity == id)
  }

  lemma Advance(lock: Lock, roots: seq<string>, visited: set<string>, rest: seq<string>, result: set<string>, path: string)
    requires Progress(lock, roots, visited, rest + [path], result)
    ensures path in lock && Reachable(roots, Succ(lock), path)
    ensures path in visited ==> Progress(lock, roots, visited, rest, result)
    ensures !Missing(lock, path) ==>
              Progress(lock, roots, visited + {path}, rest + Needs(lock, path), result + {lock[path].identity})
  {
    FrontierVisit(roots, Succ(lock), visited, rest, path);
    NeedsAreInLock(lock, path);
    assert path in rest + [path];
    assert forall e :: e in rest ==> e in rest + [path];
    if path in visited {
      FrontierSkip(roots, Succ(lock), visited, rest, path);
    }
    forall id
      ensures id in result + {lock[path].identity} <==>
              exists e :: e in visited + {path} && e in lock && lock[e].identity == id
    {
      if id == lock[path].identity {
        assert path in visited + {path};
      } else if id in result {
        var e :| e in visited && e in lock && lock[e].identity == id;
        assert e in visited + {path};
      }
    }
  }

  lemma Finished(lock: Lock, roots: seq<string>, visited: set<string>, result: set<string>)
    requires Progress(lock, roots, visited, [], result)
    ensures !SomethingMissing(lock, roots) && IsClosure(lock, roots, result)
  {
    FrontierDone(roots, Succ(lock), visited);
  }

  /** `_node_closure` for root names that are resolved from the project directory. */
  method Close(lock: Lock, names: seq<string>) returns (r: Option<set<string>>)
    ensures r.None? <==> Unresolved(lock, "", names) || SomethingMissing(lock, Resolved(lock, "", names))
    ensures r.Some? ==> IsClosure(lock, Resolved(lock, "", names), r.value)
  {
    ghost var roots := Resolved(lock, "", names);
    var start := ResolveEach(lock, "", names, true);
    if start.None? {
      return None;
    }
    var pending := start.value;
    var visited: set<string> := {};
    var result: set<string> := {};
    FrontierStart(roots, Succ(lock));
    ResolvedAreInLock(lock, "", names);
    while pending != []
      invariant Progress(lock, roots, visited, pending, result)
      decreases lock.Keys - visited, |pending|
    {
      var path := pending[|pending| - 1];
      var rest := pending[..|pending| - 1];
      assert pending == rest + [path];
      Advance(lock, roots, visited, rest, result, path);
      pending := rest;
      if path in visited {
        continue;
      }
      visited := visited + {path};
      result := result + {lock[path].identity};
      var expanded := Expand(lock, path, rest);
      if expanded.None? {
        return None;
      }
      pending := expanded.value;
    }
    Finished(lock, roots, visited, result);
    return Some(result);
  }

  // ---- The roots of the lock ----

  lemma ClosuresCombine(lock: Lock, a: seq<string>, b: seq<string>)
    ensures SomethingMissing(lock, a + b) <==> SomethingMissing(lock, a) || SomethingMissing(lock, b)
    ensures forall x, y :: IsClosure(lock, a, x) && IsClosure(lock, b, y) ==> IsClosure(lock, a + b, x + y)
  {
    forall path ensures Reachable(a + b, Succ(lock), path) <==> Reachable(a, Succ(lock), path) || Reachable(b, Succ(lock), path) {
      ClosureOfUnion(a, b, Succ(lock), path);
    }
  }

  /** The optional roots that are installed. */
  function Installed(lock: Lock, names: seq<string>): (r: seq<string>) {
    if names == [] then []
    else (if Resolution(lock, "", names[0]).Some? then [names[0]] else []) + Installed(lock, names[1..])
  }

  lemma {:induction false} InstalledResolve(lock: Lock, names: seq<string>)
    ensures Resolved(lock, "", Installed(lock, names)) == Resolved(lock, "", names)
    ensures !Unresolved(lock, "", Installed(lock, names))
  {
    if names != [] {
      InstalledResolve(lock, names[1..]);
      var rest := Installed(lock, names[1..]);
      assert ([names[0]] + rest)[1..] == rest;
      if Resolution(lock, "", names[0]).None? {
        assert Installed(lock, names) == rest;
        assert Resolved(lock, "", names) == Resolved(lock, "", names[1..]);
      }
    }
  }

  /** `runtime.update(_node_closure(...))`, keeping track of the roots covered so far. */
  method Widen(lock: Lock, ghost roots: seq<string>, covered: set<string>, names: seq<string>) returns (r: Option<set<string>>)
    requires !SomethingMissing(lock, roots) && IsClosure(lock, roots, covered)
    ensures r.None? <==> Unresolved(lock, "", names) || SomethingMissing(lock, roots + Resolved(lock, "", names))
    ensures r.Some? ==> IsClosure(lock, roots + Resolved(lock, "", names), r.value) && covered <= r.value
  {
    ClosuresCombine(lock, roots, Resolved(lock, "", names));
    var more := Close(lock, names);
    if more.None? {
      return None;
    }
    return Some(covered + more.value);
  }

  datatype Roots = Roots(
    runtime: seq<string>, optional: seq<string>, peers: seq<string>, optionalPeers: seq<string>, build: seq<string>)

  function RuntimeRoots(lock: Lock, names: Roots): seq<string> {
    Resolved(lock, "", names.runtime) + Resolved(lock, "", names.optional)
    + Resolved(lock, "", names.peers) + Resolved(lock, "", names.optionalPeers)
  }

  function AllRoots(lock: Lock, names: Roots): seq<string> {
    RuntimeRoots(lock, names) + Resolved(lock, "", names.build)
  }

  /** Runtime and build-only packages: disjoint, and together the closure of every root.  The run fails
      exactly when a required root, or something required by a reachable package, is absent. */
  method SplitRoots(lock: Lock, names: Roots) returns (r: Option<(set<string>, set<string>)>)
    ensures r.None? <==>
              || Unresolved(lock, "", names.runtime) || Unresolved(lock, "", names.peers)
              || Unresolved(lock, "", names.build) || SomethingMissing(lock, AllRoots(lock, names))
    ensures r.Some? ==> r.value.0 !! r.value.1
    ensures r.Some? ==> IsClosure(lock, RuntimeRoots(lock, names), r.value.0)
    ensures r.Some? ==> IsClosure(lock, AllRoots(lock, names), r.value.0 + r.value.1)
  {
    ghost var a := Resolved(lock, "", names.runtime);
    ghost var b := Resolved(lock, "", names.optional);
    ghost var c := Resolved(lock, "", names.peers);
    ghost var d := Resolved(lock, "", names.optionalPeers);
    ghost var e := Resolved(lock, "", names.build);
    InstalledResolve(lock, names.optional);
    InstalledResolve(lock, names.optionalPeers);
    ClosuresCombine(lock, a, b);
    ClosuresCombine(lock, a + b, c);
    ClosuresCombine(lock, a + b + c, d);
    ClosuresCombine(lock, a + b + c + d, e);
    var runtime := Close(lock, names.runtime);
    if runtime.None? {
      return None;
    }
    runtime := Widen(lock, a, runtime.value, Installed(lock, names.optional));
    if runtime.None? {
      return None;
    }
    runtime := Widen(lock, a + b, runtime.value, names.peers);
    if runtime.None? {
      return None;
    }
    runtime := Widen(lock, a + b + c, runtime.value, Installed(lock, names.optionalPeers));
    if runtime.None? {
      return None;
    }
    var build := Close(lock, names.build);
    if build.None? {
      return None;
    }
    assert runtime.value + (build.value - runtime.value) == runtime.value + build.value;
    return Some((runtime.value, build.value - runtime.value));
  }
}

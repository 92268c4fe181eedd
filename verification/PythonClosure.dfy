/** `_python_closure`: the uv lock packages that a set of dependencies pulls in. */
module PythonClosure {
  import opened Common
  import opened Reachability

  datatype Dependency = Dependency(name: string, extras: seq<string>)

  datatype Package = Package(coordinate: string, dependencies: seq<Dependency>, optional: map<string, seq<Dependency>>)

  type Lock = map<string, Package>

  function ExtraNeeds(p: Package, extras: seq<string>): seq<Dependency> {
    if extras == [] then []
    else
      var last := extras[|extras| - 1];
      ExtraNeeds(p, extras[..|extras| - 1]) + (if last in p.optional then p.optional[last] else [])
  }

  /** What a dependency requires in turn: its package's dependencies and those of the selected extras. */
  function Needs(lock: Lock, d: Dependency): seq<Dependency> {
    if d.name !in lock then [] else lock[d.name].dependencies + ExtraNeeds(lock[d.name], d.extras)
  }

  function Succ(lock: Lock): Dependency -> seq<Dependency> {
    d => Needs(lock, d)
  }

  /** A dependency on an absent package, or on an extra that its package does not offer. */
  predicate Missing(lock: Lock, d: Dependency) {
    d.name !in lock || exists extra :: extra in d.extras && extra !in lock[d.name].optional
  }

  /** Everything the lock and the roots mention; the worklist visits each at most once. */
  ghost function Mentioned(lock: Lock, roots: seq<Dependency>): set<Dependency> {
    (set d | d in roots)
    + (set name, d | name in lock && d in lock[name].dependencies :: d)
    + (set name, extra, d | name in lock && extra in lock[name].optional && d in lock[name].optional[extra] :: d)
  }

  lemma {:induction false} ExtraNeedsMentioned(lock: Lock, roots: seq<Dependency>, name: string, extras: seq<string>,
                                               d: Dependency)
    requires name in lock && d in ExtraNeeds(lock[name], extras)
    ensures d in Mentioned(lock, roots)
    decreases |extras|
  {
    var init := extras[..|extras| - 1];
    if d in ExtraNeeds(lock[name], init) {
      ExtraNeedsMentioned(lock, roots, name, init, d);
    }
  }

  lemma NeedsMentioned(lock: Lock, roots: seq<Dependency>, d: Dependency, e: Dependency)
    requires e in Needs(lock, d)
    ensures e in Mentioned(lock, roots)
  {
    if e !in lock[d.name].dependencies {
      ExtraNeedsMentioned(lock, roots, d.name, d.extras, e);
    }
  }

  /** The coordinates of the packages behind the reachable dependencies. */
  ghost predicate IsClosure(lock: Lock, roots: seq<Dependency>, coordinates: set<string>) {
    forall c :: c in coordinates <==>
      exists d :: Reachable(roots, Succ(lock), d) && d.name in lock && lock[d.name].coordinate == c
  }

  ghost predicate SomethingMissing(lock: Lock, roots: seq<Dependency>) {
    exists d :: Reachable(roots, Succ(lock), d) && Missing(lock, d)
  }

  /** The end of the loop body: look the package up, then queue what the dependency needs. */
  method Expand(lock: Lock, dependency: Dependency, rest: seq<Dependency>) returns (r: Result<seq<Dependency>, string>)
    ensures r.Err? <==> Missing(lock, dependency)
    ensures r.Ok? ==> r.value == rest + Needs(lock, dependency)
  {
    if dependency.name !in lock {
      return Err("references absent package");
    }
    var package := lock[dependency.name];
    var pending := rest + package.dependencies;
    var i := 0;
    while i < |dependency.extras|
      invariant 0 <= i <= |dependency.extras|
      invariant pending == rest + (package.dependencies + ExtraNeeds(package, dependency.extras[..i]))
      invariant forall k :: 0 <= k < i ==> dependency.extras[k] in package.optional
    {
      var extra := dependency.extras[i];
      if extra !in package.optional {
        return Err("requests absent extra");
      }
      assert dependency.extras[..i + 1][..i] == dependency.extras[..i];
      pending := pending + package.optional[extra];
      i := i + 1;
    }
    assert dependency.extras[..|dependency.extras|] == dependency.extras;
    return Ok(pending);
  }

  /** What the outer loop keeps. */
  ghost predicate Progress(lock: Lock, roots: seq<Dependency>, visited: set<Dependency>, pending: seq<Dependency>,
                           result: set<string>) {
    && Frontier(roots, Succ(lock), visited, pending)
    && visited <= Mentioned(lock, roots)
    && (forall d :: d in pending ==> d in Mentioned(lock, roots))
    && (forall d :: d in visited ==> !Missing(lock, d))
    && (forall c :: c in result <==> exists d :: d in visited && d.name in lock && lock[d.name].coordinate == c)
  }

  lemma Advance(lock: Lock, roots: seq<Dependency>, visited: set<Dependency>, rest: seq<Dependency>,
                result: set<string>, d: Dependency)
    requires Progress(lock, roots, visited, rest + [d], result)
    ensures d in Mentioned(lock, roots) && Reachable(roots, Succ(lock), d)
    ensures d in visited ==> Progress(lock, roots, visited, rest, result)
    ensures !Missing(lock, d) ==>
              Progress(lock, roots, visited + {d}, rest + Needs(lock, d), result + {lock[d.name].coordinate})
  {
    FrontierVisit(roots, Succ(lock), visited, rest, d);
    assert d in rest + [d];
    assert forall e :: e in rest ==> e in rest + [d];
    if d in visited {
      FrontierSkip(roots, Succ(lock), visited, rest, d);
    }
    if !Missing(lock, d) {
      forall e | e in rest + Needs(lock, d) ensures e in Mentioned(lock, roots) {
        if e !in rest {
          NeedsMentioned(lock, roots, d, e);
        }
      }
      forall c
        ensures c in result + {lock[d.name].coordinate} <==>
                exists e :: e in visited + {d} && e.name in lock && lock[e.name].coordinate == c
      {
        if c == lock[d.name].coordinate {
          assert d in visited + {d};
        } else if c in result {
          var e :| e in visited && e.name in lock && lock[e.name].coordinate == c;
          assert e in visited + {d};
        }
      }
    }
  }

  lemma Finished(lock: Lock, roots: seq<Dependency>, visited: set<Dependency>, result: set<string>)
    requires Progress(lock, roots, visited, [], result)
    ensures !SomethingMissing(lock, roots) && IsClosure(lock, roots, result)
  {
    FrontierDone(roots, Succ(lock), visited);
  }

  method Close(lock: Lock, roots: seq<Dependency>) returns (r: Result<set<string>, string>)
    ensures r.Err? <==> SomethingMissing(lock, roots)
    ensures r.Ok? ==> IsClosure(lock, roots, r.value)
  {
    var result: set<string> := {};
    var pending := roots;
    var visited: set<Dependency> := {};
    FrontierStart(roots, Succ(lock));
    while pending != []
      invariant Progress(lock, roots, visited, pending, result)
      decreases Mentioned(lock, roots) - visited, |pending|
    {
      var dependency := pending[|pending| - 1];
      var rest := pending[..|pending| - 1];
      assert pending == rest + [dependency];
      Advance(lock, roots, visited, rest, result, dependency);
      pending := rest;
      if dependency in visited {
        continue;
      }
      visited := visited + {dependency};
      var expanded := Expand(lock, dependency, rest);
      if expanded.Err? {
        return Err(expanded.error);
      }
      pending := expanded.value;
      result := result + {lock[dependency.name].coordinate};
    }
    Finished(lock, roots, visited, result);
    return Ok(result);
  }

  /** Runtime and build-only sets are disjoint, and together are the closure of all roots. */
  method Split(lock: Lock, runtimeRoots: seq<Dependency>, buildRoots: seq<Dependency>)
    returns (r: Result<(set<string>, set<string>), string>)
    ensures r.Err? <==> SomethingMissing(lock, runtimeRoots + buildRoots)
    ensures r.Ok? ==> r.value.0 !! r.value.1 && IsClosure(lock, runtimeRoots, r.value.0)
    ensures r.Ok? ==> IsClosure(lock, runtimeRoots + buildRoots, r.value.0 + r.value.1)
  {
    ClosuresCombine(lock, runtimeRoots, buildRoots);
    var runtime := Close(lock, runtimeRoots);
    if runtime.Err? {
      return Err(runtime.error);
    }
    var build := Close(lock, buildRoots);
    if build.Err? {
      return Err(build.error);
    }
    assert runtime.value + (build.value - runtime.value) == runtime.value + build.value;
    return Ok((runtime.value, build.value - runtime.value));
  }

  lemma ClosuresCombine(lock: Lock, a: seq<Dependency>, b: seq<Dependency>)
    ensures SomethingMissing(lock, a + b) <==> SomethingMissing(lock, a) || SomethingMissing(lock, b)
    ensures forall x, y :: IsClosure(lock, a, x) && IsClosure(lock, b, y) ==> IsClosure(lock, a + b, x + y)
  {
    forall d ensures Reachable(a + b, Succ(lock), d) <==> Reachable(a, Succ(lock), d) || Reachable(b, Succ(lock), d) {
      ClosureOfUnion(a, b, Succ(lock), d);
    }
  }
}

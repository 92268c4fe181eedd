/** Archive links as chains: `_resolve_links`, and the graph that every link resolver walks. */
module Links {
  import opened Common
  import opened Paths
  import opened Chains
  import LinkTarget

  datatype Link = Link(target: string, hardlink: bool)

  function HopOf(name: Path, link: Link, allowAbsolute: bool): Hop<Path> {
    match LinkTarget.Target(name, link.target, link.hardlink, allowAbsolute)
    case Ok(target) => To(target)
    case Err(_) => Escape
  }

  function LinkGraph<V>(base: map<Path, V>, links: map<Path, Link>, allowAbsolute: bool): (g: Graph<Path, V>) {
    Graph(base, map name | name in links :: HopOf(name, links[name], allowAbsolute))
  }

  /** `_resolve_links`: every file and every link, each link with the bytes its chain ends in. */
  method ResolveLinks(files: map<Path, Bytes>, links: map<Path, Link>, allowAbsolute: bool)
    returns (r: Result<map<Path, Bytes>, Failure>)
    ensures var g := LinkGraph(files, links, allowAbsolute);
            && (r.Ok? <==> forall name {:trigger Succeeds(g, name)} :: name in links ==> Succeeds(g, name))
            && (r.Ok? ==> r.value.Keys == files.Keys + links.Keys && MemoSound(g, r.value))
            && (r.Err? ==> exists name {:trigger FailsWith(g, name, r.error)} :: name in links && FailsWith(g, name, r.error))
  {
    var g := LinkGraph(files, links, allowAbsolute);
    assert g.next.Keys == links.Keys;
    r := ResolveAll(g, (_: Bytes) => true);
    assert r.Ok? ==> forall name :: name in g.next ==> MustKeep(g, name, (_: Bytes) => true);
  }
}

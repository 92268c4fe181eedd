/** The overlay of image layers: `_oci_snapshot`'s four collections and how one layer changes them. */
module OciFold {
  import opened Common
  import opened Paths
  import opened Links
  import opened OciLayer
  import opened Chains

  // ---- Order-free meaning of one layer over a lower view ----

  datatype View = View(files: map<Path, Bytes>, links: map<Path, Link>, entries: map<Path, Entry>)

  const EMPTY_VIEW := View(map[], map[], map[])

  /** `item == target or item.startswith(target + "/")`. */
  predicate Under(target: Path, item: Path) {
    target <= item
  }

  /** What an opaque marker in `directory` hides: everything strictly below it. */
  predicate OpaqueHides(directory: Path, item: Path) {
    directory == ["."] || directory < item
  }

  predicate CoveredBy(targets: set<Path>, item: Path) {
    exists t :: t in targets && Under(t, item)
  }

  predicate OpaqueCovered(directories: set<Path>, item: Path) {
    exists d :: d in directories && OpaqueHides(d, item)
  }

  predicate Marked(layer: Layer, p: Path) {
    CoveredBy(layer.whiteouts, p) || OpaqueCovered(layer.opaques, p)
  }

  predicate Replaced(layer: Layer, p: Path) {
    CoveredBy(layer.files.Keys + layer.links.Keys, p)
  }

  /** Covered by a directory of the layer that stands where the lower view has a file or link. */
  predicate Displaced(stored: set<Path>, layer: Layer, p: Path) {
    CoveredBy(layer.directories * stored, p)
  }

  function Stored(v: View): set<Path> {
    v.files.Keys + v.links.Keys
  }

  predicate Removes(stored: set<Path>, layer: Layer, p: Path) {
    Marked(layer, p) || Replaced(layer, p) || Displaced(stored, layer, p)
  }

  ghost function Gone(stored: set<Path>, layer: Layer): iset<Path> {
    iset p | Removes(stored, layer, p)
  }

  ghost function Without<V>(m: map<Path, V>, gone: iset<Path>): map<Path, V> {
    m - (set p | p in m && p in gone)
  }

  ghost function Trim(v: View, gone: iset<Path>): View {
    View(Without(v.files, gone), Without(v.links, gone), Without(v.entries, gone))
  }

  ghost function Kept(v: View, layer: Layer): View {
    Trim(v, Gone(Stored(v), layer))
  }

  function Incoming(layer: Layer): set<Path> {
    layer.files.Keys + layer.links.Keys + layer.directories
  }

  /** Some incoming path has a proper ancestor that is a link of this layer, or a lower link that
      this layer's markers leave in place. */
  predicate TraversesLink(v: View, layer: Layer) {
    exists name, k: nat ::
      name in Incoming(layer) && 0 < k < |name| &&
      (name[..k] in layer.links || (name[..k] in v.links && !Marked(layer, name[..k])))
  }

  function Hardlinks(layer: Layer): map<Path, Link> {
    layer.links - (set p | p in layer.links && !layer.links[p].hardlink)
  }

  function Symlinks(layer: Layer): map<Path, Link> {
    layer.links - (set p | p in layer.links && layer.links[p].hardlink)
  }

  /** A hardlink reads this layer's files, then the lower files that are left, then hardlinks. */
  ghost function HardlinkGraph(v: View, layer: Layer): Graph<Path, Bytes> {
    LinkGraph(Kept(v, layer).files + layer.files, Hardlinks(layer), true)
  }

  ghost predicate Accepts(v: View, layer: Layer) {
    && !TraversesLink(v, layer)
    && forall name {:trigger Succeeds(HardlinkGraph(v, layer), name)} ::
         name in Hardlinks(layer) ==> Succeeds(HardlinkGraph(v, layer), name)
  }

  function Metadata(layer: Layer, content: map<Path, Bytes>): map<Path, Entry>
    requires Hardlinks(layer).Keys <= content.Keys
  {
    map p | p in layer.metadata ::
      if p in Hardlinks(layer) then layer.metadata[p].(data := Some(content[p])) else layer.metadata[p]
  }

  function Content(layer: Layer, all: map<Path, Bytes>): map<Path, Bytes>
    requires Hardlinks(layer).Keys <= all.Keys
  {
    layer.files + (all - (all.Keys - Hardlinks(layer).Keys))
  }

  /** The view after a layer, given the resolved bytes of every name a hardlink can reach. */
  ghost function Overlay(v: View, layer: Layer, all: map<Path, Bytes>): View
    requires Hardlinks(layer).Keys <= all.Keys
  {
    var kept := Kept(v, layer);
    View(kept.files + Content(layer, all), kept.links + Symlinks(layer), kept.entries + Metadata(layer, all))
  }

  ghost predicate Resolution(v: View, layer: Layer, all: map<Path, Bytes>) {
    && Hardlinks(layer).Keys <= all.Keys
    && MemoSound(HardlinkGraph(v, layer), all)
  }

  /** The relation between the view before a layer and the view after it. */
  ghost predicate Applies(v: View, layer: Layer, v': View) {
    Accepts(v, layer) && exists all :: Resolution(v, layer, all) && v' == Overlay(v, layer, all)
  }

  // ---- Agreement of the views ----

  /** The collections tell one story about `p`: it is stored as bytes exactly when its entry is a file
      or a hardlink with those bytes, and as a link exactly when its entry is a symlink with that target. */
  predicate AgreeAt(v: View, p: Path) {
    && (p in v.entries ==> NameOk(p))
    && (p in v.files <==> p in v.entries && (v.entries[p].kind == File || v.entries[p].kind == Hardlink))
    && (p in v.files ==> v.entries[p].data == Some(v.files[p]))
    && (p in v.links <==> p in v.entries && v.entries[p].kind == Symlink)
    && (p in v.links ==> v.entries[p].target == Some(v.links[p].target) && !v.links[p].hardlink)
  }

  ghost predicate Agree(v: View) {
    forall p :: AgreeAt(v, p)
  }

  /** Nothing is recorded below a symbolic link. */
  ghost predicate LinksAreLeaves(v: View) {
    forall l, p :: l in v.links && p in v.entries ==> !(l < p)
  }

  lemma OverlayAgreesAt(v: View, layer: Layer, all: map<Path, Bytes>, p: Path)
    requires AgreeAt(v, p) && Coherent(layer) && Hardlinks(layer).Keys <= all.Keys
    ensures AgreeAt(Overlay(v, layer, all), p)
  {
    var v' := Overlay(v, layer, all);
    if p in layer.metadata {
      assert v'.entries[p] == Metadata(layer, all)[p];
      if p in layer.files {
        assert v'.files[p] == layer.files[p];
      } else if p in layer.links {
        assert Under(p, p) && Replaced(layer, p);
      } else {
        assert p in Stored(v) ==> Displaced(Stored(v), layer, p) by {
          assert Under(p, p);
        }
      }
    } else {
      assert p !in Content(layer, all) && p !in Symlinks(layer);
    }
  }

  lemma OverlayAgrees(v: View, layer: Layer, all: map<Path, Bytes>)
    requires Agree(v) && Coherent(layer) && Hardlinks(layer).Keys <= all.Keys
    ensures Agree(Overlay(v, layer, all))
  {
    forall p ensures AgreeAt(Overlay(v, layer, all), p) {
      OverlayAgreesAt(v, layer, all, p);
    }
  }

  /** Only a traversal of a link could record something below a link. */
  lemma BelowLinkMeansTraversal(v: View, layer: Layer, all: map<Path, Bytes>, l: Path, p: Path)
    requires Agree(v) && Coherent(layer) && Hardlinks(layer).Keys <= all.Keys
    requires LinksAreLeaves(v)
    requires l in Overlay(v, layer, all).links && p in Overlay(v, layer, all).entries && l < p
    ensures TraversesLink(v, layer)
  {
    assert p[..|l|] == l;
    assert AgreeAt(v, l);
    assert l != [];
    if p in layer.metadata {
      assert p in Incoming(layer) && 0 < |l| < |p|;
    }
  }

  lemma OverlayKeepsLeaves(v: View, layer: Layer, all: map<Path, Bytes>)
    requires Agree(v) && Coherent(layer) && Hardlinks(layer).Keys <= all.Keys
    requires LinksAreLeaves(v) && !TraversesLink(v, layer)
    ensures LinksAreLeaves(Overlay(v, layer, all))
  {
    forall l, p | l in Overlay(v, layer, all).links && p in Overlay(v, layer, all).entries
      ensures !(l < p)
    {
      if l < p {
        BelowLinkMeansTraversal(v, layer, all, l, p);
      }
    }
  }

  /** A directory recorded in what is kept, or by the layer itself, is recorded afterwards. */
  lemma DirectoryStaysRecorded(v: View, layer: Layer, all: map<Path, Bytes>, d: Path)
    requires Coherent(layer) && Hardlinks(layer).Keys <= all.Keys
    requires d !in layer.directories ==> d in Kept(v, layer).entries && v.entries[d].kind == Directory
    ensures d in Overlay(v, layer, all).entries && Overlay(v, layer, all).entries[d].kind == Directory
  {
    if d in layer.directories {
      assert d in Metadata(layer, all);
    } else {
      assert Under(d, d);
      assert !Replaced(layer, d);
      assert d !in layer.metadata;
    }
  }

  // ---- Trimming, one removal at a time ----

  ghost function Trees(targets: set<Path>): iset<Path> {
    iset p | CoveredBy(targets, p)
  }

  ghost function Opaqued(directories: set<Path>): iset<Path> {
    iset p | OpaqueCovered(directories, p)
  }

  ghost function TrimSet(s: set<Path>, gone: iset<Path>): set<Path> {
    set p | p in s && p !in gone
  }

  lemma TrimTwice(v: View, a: iset<Path>, b: iset<Path>)
    ensures Trim(Trim(v, a), b) == Trim(v, a + b)
  {
  }

  lemma TrimNothing(v: View)
    ensures Trim(v, iset{}) == v
  {
  }

  // ---- The directory loop, whose iteration order is the set's ----

  datatype DirectoryState = DirectoryState(stored: set<Path>, directories: set<Path>)

  function DirectoryStep(s: DirectoryState, name: Path): DirectoryState {
    if name in s.stored then
      DirectoryState(set p | p in s.stored && !Under(name, p), (set p | p in s.directories && !Under(name, p)) + {name})
    else s.(directories := s.directories + {name})
  }

  function DirectoryRun(s: DirectoryState, order: seq<Path>): DirectoryState {
    if order == [] then s
    else DirectoryStep(DirectoryRun(s, order[..|order| - 1]), order[|order| - 1])
  }

  ghost predicate IsOrder(order: seq<Path>, names: set<Path>) {
    && (forall name :: name in names <==> name in order)
    && (forall i, j :: 0 <= i < j < |order| ==> order[i] != order[j])
  }

  lemma TreesGrow(done: set<Path>, t: Path)
    ensures Trees(done + {t}) == Trees(done) + Trees({t})
  {
    forall p ensures CoveredBy(done + {t}, p) <==> CoveredBy(done, p) || CoveredBy({t}, p) {
      if Under(t, p) {
        assert t in done + {t};
      }
    }
  }

  /** A tree inside a removed tree adds nothing. */
  lemma TreesAbsorb(done: set<Path>, t: Path)
    requires CoveredBy(done, t)
    ensures Trees(done + {t}) == Trees(done)
  {
    TreesGrow(done, t);
    var u :| u in done && Under(u, t);
    forall p | CoveredBy({t}, p) ensures CoveredBy(done, p) {
      assert Under(u, p);
    }
  }

  lemma TrimTrees(v: View, s: set<Path>, gone: iset<Path>, done: set<Path>, t: Path)
    ensures Trim(Trim(v, gone + Trees(done)), Trees({t})) == Trim(v, gone + Trees(done + {t}))
    ensures TrimSet(TrimSet(s, gone + Trees(done)), Trees({t})) == TrimSet(s, gone + Trees(done + {t}))
  {
    TreesGrow(done, t);
    TrimTwice(v, gone + Trees(done), Trees({t}));
    assert gone + Trees(done) + Trees({t}) == gone + Trees(done + {t});
  }

  lemma TrimOpaqued(v: View, s: set<Path>, done: set<Path>, d: Path)
    ensures Trim(Trim(v, Opaqued(done)), Opaqued({d})) == Trim(v, Opaqued(done + {d}))
    ensures TrimSet(TrimSet(s, Opaqued(done)), Opaqued({d})) == TrimSet(s, Opaqued(done + {d}))
  {
    forall p ensures OpaqueCovered(done + {d}, p) <==> OpaqueCovered(done, p) || OpaqueCovered({d}, p) {
      if OpaqueHides(d, p) {
        assert d in done + {d};
      }
    }
    assert Opaqued(done + {d}) == Opaqued(done) + Opaqued({d});
    TrimTwice(v, Opaqued(done), Opaqued({d}));
  }

  /** What the first two stages remove: markers, then the trees of the layer's files and links. */
  ghost function Hidden(layer: Layer): iset<Path> {
    Opaqued(layer.opaques) + Trees(layer.whiteouts) + Trees(layer.files.Keys + layer.links.Keys)
  }

  /** The remembered directories after a layer whose directory names are visited in `order`. */
  ghost function DirectoriesAfter(v: View, known: set<Path>, layer: Layer, order: seq<Path>): set<Path> {
    DirectoryRun(DirectoryState(Stored(Trim(v, Hidden(layer))), TrimSet(known, Hidden(layer))), order).directories
  }

  /** The three stages of removal together remove what `Removes` says, although the directory loop
      looks at what the earlier stages left. */
  lemma StagesRemove(v: View, layer: Layer)
    ensures Trim(Trim(v, Hidden(layer)), Trees(layer.directories * Stored(Trim(v, Hidden(layer))))) == Kept(v, layer)
  {
    var replaced := Hidden(layer);
    var rest := Stored(Trim(v, replaced));
    forall p ensures p in replaced + Trees(layer.directories * rest) <==> Removes(Stored(v), layer, p) {
      if CoveredBy(layer.directories * Stored(v), p) {
        var n :| n in layer.directories * Stored(v) && Under(n, p);
        if n !in rest {
          assert n in replaced;
          CoverIsUpward(layer, n, p);
        } else {
          assert n in layer.directories * rest;
        }
      }
      if CoveredBy(layer.directories * rest, p) {
        var n :| n in layer.directories * rest && Under(n, p);
        assert n in layer.directories * Stored(v);
      }
    }
    assert replaced + Trees(layer.directories * rest) == Gone(Stored(v), layer);
    TrimTwice(v, replaced, Trees(layer.directories * rest));
  }

  /** What hides a path hides everything below it. */
  lemma CoverIsUpward(layer: Layer, n: Path, p: Path)
    requires Under(n, p)
    ensures Marked(layer, n) ==> Marked(layer, p)
    ensures Replaced(layer, n) ==> Replaced(layer, p)
  {
    if CoveredBy(layer.whiteouts, n) {
      var w :| w in layer.whiteouts && Under(w, n);
      assert Under(w, p);
    }
    if OpaqueCovered(layer.opaques, n) {
      var d :| d in layer.opaques && OpaqueHides(d, n);
      assert OpaqueHides(d, p);
    }
    if Replaced(layer, n) {
      var r :| r in layer.files.Keys + layer.links.Keys && Under(r, n);
      assert Under(r, p);
    }
  }

  /** One turn of the directory loop, on the tables. */
  lemma DirectoryTurn(v: View, done: set<Path>, name: Path)
    requires name !in done
    ensures
      var now := Trim(v, Trees(done * Stored(v)));
      (if name in Stored(now) then Trim(now, Trees({name})) else now) == Trim(v, Trees((done + {name}) * Stored(v)))
  {
    var before := done * Stored(v);
    var now := Trim(v, Trees(before));
    assert name in Stored(now) <==> name in Stored(v) && !CoveredBy(before, name);
    if name !in Stored(v) {
      assert (done + {name}) * Stored(v) == before;
    } else {
      assert (done + {name}) * Stored(v) == before + {name};
      if CoveredBy(before, name) {
        TreesAbsorb(before, name);
      } else {
        TreesGrow(before, name);
        TrimTwice(v, Trees(before), Trees({name}));
      }
    }
  }

  lemma OrderGrows(order: seq<Path>, names: set<Path>, name: Path)
    requires IsOrder(order, names) && name !in names
    ensures IsOrder(order + [name], names + {name})
  {
    var longer := order + [name];
    forall i, j | 0 <= i < j < |longer| ensures longer[i] != longer[j] {
      assert longer[i] in order;
    }
  }

  lemma RunGrows(s: DirectoryState, order: seq<Path>, name: Path)
    ensures DirectoryRun(s, order + [name]) == DirectoryStep(DirectoryRun(s, order), name)
  {
    assert (order + [name])[..|order|] == order;
  }

  lemma OneTree(t: Path)
    ensures forall p :: p in Trees({t}) <==> Under(t, p)
  {
    forall p ensures CoveredBy({t}, p) <==> Under(t, p) {
      assert t in {t};
    }
  }

  lemma OneOpaque(d: Path)
    ensures forall p :: p in Opaqued({d}) <==> OpaqueHides(d, p)
  {
    forall p ensures OpaqueCovered({d}, p) <==> OpaqueHides(d, p) {
      assert d in {d};
    }
  }

  // ---- The fold itself ----

  class ImageFold {
    var filesystem: map<Path, Bytes>
    var links: map<Path, Link>
    var directories: set<Path>
    var entriesByPath: map<Path, Entry>

    ghost function Tables(): View
      reads this
    {
      View(filesystem, links, entriesByPath)
    }

    /** Every remembered directory is recorded as one. */
    ghost predicate DirectoriesRecorded()
      reads this
    {
      forall d :: d in directories ==> d in entriesByPath && entriesByPath[d].kind == Directory
    }

    ghost predicate Valid()
      reads this
    {
      Agree(Tables()) && LinksAreLeaves(Tables()) && DirectoriesRecorded()
    }

    constructor ()
      ensures Valid() && Tables() == EMPTY_VIEW && directories == {}
    {
      filesystem, links, directories, entriesByPath := map[], map[], {}, map[];
    }

    method RemoveTree(target: Path)
      modifies this
      ensures Tables() == Trim(old(Tables()), Trees({target}))
      ensures directories == TrimSet(old(directories), Trees({target}))
    {
      OneTree(target);
      filesystem := filesystem - (set p | p in filesystem && Under(target, p));
      links := links - (set p | p in links && Under(target, p));
      entriesByPath := entriesByPath - (set p | p in entriesByPath && Under(target, p));
      directories := set d | d in directories && !Under(target, d);
    }

    method RemoveBelow(directory: Path)
      modifies this
      ensures Tables() == Trim(old(Tables()), Opaqued({directory}))
      ensures directories == TrimSet(old(directories), Opaqued({directory}))
    {
      OneOpaque(directory);
      filesystem := filesystem - (set p | p in filesystem && OpaqueHides(directory, p));
      links := links - (set p | p in links && OpaqueHides(directory, p));
      directories := set d | d in directories && !OpaqueHides(directory, d);
      entriesByPath := entriesByPath - (set p | p in entriesByPath && OpaqueHides(directory, p));
    }

    /** The layer's own markers, applied to what lies below. */
    method ApplyMarkers(layer: Layer)
      requires DirectoriesRecorded()
      modifies this
      ensures Tables() == Trim(old(Tables()), Opaqued(layer.opaques) + Trees(layer.whiteouts))
      ensures directories == TrimSet(old(directories), Opaqued(layer.opaques) + Trees(layer.whiteouts))
      ensures DirectoriesRecorded()
    {
      ghost var start, known := Tables(), directories;
      var pending := layer.opaques;
      TrimNothing(start);
      assert Opaqued({}) == iset{};
      while pending != {}
        invariant pending <= layer.opaques && DirectoriesRecorded()
        invariant Tables() == Trim(start, Opaqued(layer.opaques - pending))
        invariant directories == TrimSet(known, Opaqued(layer.opaques - pending))
      {
        var d :| d in pending;
        TrimOpaqued(start, known, layer.opaques - pending, d);
        assert layer.opaques - pending + {d} == layer.opaques - (pending - {d});
        RemoveBelow(d);
        pending := pending - {d};
      }
      assert layer.opaques - {} == layer.opaques;
      RemoveTrees(layer.whiteouts, start, known, Opaqued(layer.opaques));
    }

    method RemoveTrees(targets: set<Path>, ghost start: View, ghost known: set<Path>, ghost gone: iset<Path>)
      requires DirectoriesRecorded() && Tables() == Trim(start, gone) && directories == TrimSet(known, gone)
      modifies this
      ensures Tables() == Trim(start, gone + Trees(targets))
      ensures directories == TrimSet(known, gone + Trees(targets))
      ensures DirectoriesRecorded()
    {
      var pending := targets;
      assert gone + Trees({}) == gone;
      while pending != {}
        invariant pending <= targets && DirectoriesRecorded()
        invariant Tables() == Trim(start, gone + Trees(targets - pending))
        invariant directories == TrimSet(known, gone + Trees(targets - pending))
      {
        var t :| t in pending;
        TrimTrees(start, known, gone, targets - pending, t);
        assert targets - pending + {t} == targets - (pending - {t});
        RemoveTree(t);
        pending := pending - {t};
      }
      assert targets - {} == targets;
    }

    /** The check that no incoming path runs through a link; lower links count unless marked away. */
    method TraversalFound(layer: Layer, ghost start: View) returns (found: bool)
      requires Tables() == Trim(start, Opaqued(layer.opaques) + Trees(layer.whiteouts))
      ensures found == TraversesLink(start, layer)
    {
      var allLinks := links.Keys + layer.links.Keys;
      assert forall p :: p in allLinks <==> p in layer.links || (p in start.links && !Marked(layer, p));
      found := exists name, k: nat :: name in Incoming(layer) && 0 < k < |name| && name[..k] in allLinks;
    }

    /** Every remembered directory that is not one of `names` is recorded as a directory. */
    ghost predicate RecordedExcept(names: set<Path>)
      reads this
    {
      forall d :: d in directories && d !in names ==> d in entriesByPath && entriesByPath[d].kind == Directory
    }

    method PlaceDirectory(name: Path, ghost names: set<Path>)
      requires RecordedExcept(names) && name in names
      modifies this
      ensures RecordedExcept(names) && directories <= old(directories) + {name}
      ensures Tables() ==
              if name in Stored(old(Tables())) then Trim(old(Tables()), Trees({name})) else old(Tables())
      ensures DirectoryState(Stored(Tables()), directories) ==
              DirectoryStep(DirectoryState(Stored(old(Tables())), old(directories)), name)
    {
      if name in filesystem || name in links {
        RemoveTree(name);
        OneTree(name);
      }
      directories := directories + {name};
    }

    /** The directory loop; `order` is the order in which the set yields its names. */
    method PlaceDirectories(names: set<Path>) returns (ghost order: seq<Path>)
      requires DirectoriesRecorded()
      modifies this
      ensures Tables() == Trim(old(Tables()), Trees(names * Stored(old(Tables()))))
      ensures RecordedExcept(names) && directories <= old(directories) + names
      ensures IsOrder(order, names)
      ensures DirectoryState(Stored(Tables()), directories) ==
              DirectoryRun(DirectoryState(Stored(old(Tables())), old(directories)), order)
    {
      ghost var start := Tables();
      var pending := names;
      order := [];
      assert Trees({} * Stored(start)) == iset{};
      TrimNothing(start);
      while pending != {}
        invariant pending <= names
        invariant Tables() == Trim(start, Trees((names - pending) * Stored(start)))
        invariant RecordedExcept(names) && directories <= old(directories) + names
        invariant IsOrder(order, names - pending)
        invariant DirectoryState(Stored(Tables()), directories) ==
                  DirectoryRun(DirectoryState(Stored(start), old(directories)), order)
      {
        var name :| name in pending;
        DirectoryTurn(start, names - pending, name);
        assert names - pending + {name} == names - (pending - {name});
        PlaceDirectory(name, names);
        OrderGrows(order, names - pending, name);
        RunGrows(DirectoryState(Stored(start), old(directories)), order, name);
        order := order + [name];
        pending := pending - {name};
      }
      assert names - {} == names;
    }

    /** Everything the layer's files, links and directories displace is taken away. */
    method MakeRoom(layer: Layer, ghost start: View, ghost known: set<Path>) returns (ghost order: seq<Path>)
      requires DirectoriesRecorded()
      requires Tables() == Trim(start, Opaqued(layer.opaques) + Trees(layer.whiteouts))
      requires directories == TrimSet(known, Opaqued(layer.opaques) + Trees(layer.whiteouts))
      modifies this
      ensures Tables() == Kept(start, layer) && RecordedExcept(layer.directories)
      ensures IsOrder(order, layer.directories) && directories == DirectoriesAfter(start, known, layer, order)
    {
      RemoveTrees(layer.files.Keys + layer.links.Keys, start, known, Opaqued(layer.opaques) + Trees(layer.whiteouts));
      order := PlaceDirectories(layer.directories);
      StagesRemove(start, layer);
    }

    /** The layer's own files, links and metadata go in on top. */
    method Record(layer: Layer, all: map<Path, Bytes>, ghost start: View)
      requires Agree(start) && LinksAreLeaves(start) && Coherent(layer) && !TraversesLink(start, layer)
      requires Tables() == Kept(start, layer) && RecordedExcept(layer.directories)
      requires Hardlinks(layer).Keys <= all.Keys
      modifies `filesystem, `links, `entriesByPath
      ensures Valid() && Tables() == Overlay(start, layer, all)
    {
      OverlayAgrees(start, layer, all);
      OverlayKeepsLeaves(start, layer, all);
      forall d | d in directories
        ensures d in Overlay(start, layer, all).entries && Overlay(start, layer, all).entries[d].kind == Directory
      {
        DirectoryStaysRecorded(start, layer, all, d);
      }
      filesystem := filesystem + Content(layer, all);
      links := links + Symlinks(layer);
      entriesByPath := entriesByPath + Metadata(layer, all);
      assert Tables() == Overlay(start, layer, all);
    }

    /** One layer.  Acceptance and the resulting tables are determined by the layer and the tables
        before it; only `directories` depends on `order`. */
    method ApplyLayer(layer: Layer) returns (r: Result<(), string>, ghost order: seq<Path>)
      requires Valid() && Coherent(layer)
      modifies this
      ensures r.Ok? <==> Accepts(old(Tables()), layer)
      ensures r.Ok? ==> Valid() && Applies(old(Tables()), layer, Tables())
      ensures r.Ok? ==> IsOrder(order, layer.directories)
      ensures r.Ok? ==> directories == DirectoriesAfter(old(Tables()), old(directories), layer, order)
    {
      ghost var start := Tables();
      order := [];
      ApplyMarkers(layer);
      var found := TraversalFound(layer, start);
      if found {
        return Err("final image layer traverses a symlinked parent"), [];
      }
      order := MakeRoom(layer, start, old(directories));
      var g := LinkGraph(filesystem + layer.files, Hardlinks(layer), true);
      assert g == HardlinkGraph(start, layer);
      assert g.next.Keys == Hardlinks(layer).Keys;
      var resolved := ResolveRoots(g);
      if resolved.Err? {
        return Err("final image contains a cyclic or dangling hardlink"), order;
      }
      assert Resolution(start, layer, resolved.value);
      Record(layer, resolved.value, start);
      return Ok(()), order;
    }
  }
}

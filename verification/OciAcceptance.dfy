/** Which directories a run remembers, whatever orders it takes, and when acceptance of an image does
    not depend on them. */
module OciAcceptance {
  import opened Common
  import opened Paths
  import opened Links
  import opened OciLayer
  import opened OciFold
  import opened OciProvenance
  import opened OciOrder
  import opened OciSnapshot
  import opened Chains
  import LinkTarget

  // ---- Pointwise, from the layers alone ----

  /** The layer lists a directory above `d` in the place of content that its own markers, files and links
      leave there. */
  ghost predicate Threatened(below: seq<Layer>, layer: Layer, d: Path) {
    exists n :: n in layer.directories && n < d && HasContent(below, n) && !Marked(layer, n) && !Replaced(layer, n)
  }

  /** The newest layer that records `d` lists it as a directory. */
  ghost predicate ListedAt(layers: seq<Layer>, i: int, d: Path) {
    Visible(layers, i, d) && d in layers[i].directories
  }

  ghost predicate Listed(layers: seq<Layer>, d: Path) {
    exists i :: ListedAt(layers, i, d)
  }

  ghost predicate Firm(layers: seq<Layer>, d: Path) {
    exists i :: ListedAt(layers, i, d) && !Threatened(layers[..i], layers[i], d)
  }

  lemma ListedOneMore(init: seq<Layer>, layer: Layer, d: Path)
    requires Coherent(layer)
    ensures d in layer.directories ==> Listed(init + [layer], d)
    ensures d in layer.directories ==> (Firm(init + [layer], d) <==> !Threatened(init, layer, d))
    ensures d !in layer.directories ==> (Listed(init + [layer], d) <==> Listed(init, d) && !RemovedBy(init, layer, d))
    ensures d !in layer.directories ==> (Firm(init + [layer], d) <==> Firm(init, d) && !RemovedBy(init, layer, d))
  {
    var layers, n := init + [layer], |init|;
    assert layers[n] == layer && layers[..n] == init;
    forall i | 0 <= i < n ensures layers[i] == init[i] && layers[..i] == init[..i] {}
    forall i ensures 0 <= i < n ==>
        (Visible(layers, i, d) <==> Visible(init, i, d) && d !in layer.metadata && !RemovedBy(init, layer, d))
    {
      VisibleOneMore(init, layer, i, d);
    }
    VisibleOneMore(init, layer, n, d);
    if d in layer.directories {
      assert ListedAt(layers, n, d);
      assert forall i :: ListedAt(layers, i, d) ==> i == n;
    } else {
      RecordedIsReplaced(init, layer, d);
      ListedInherited(init, layer, d);
    }
  }

  lemma RecordedIsReplaced(below: seq<Layer>, layer: Layer, d: Path)
    requires Coherent(layer)
    ensures d in layer.metadata && d !in layer.directories ==> RemovedBy(below, layer, d)
  {
    if d in layer.metadata && d !in layer.directories {
      assert Under(d, d);
      assert Replaced(layer, d);
    }
  }

  lemma ListedInherited(init: seq<Layer>, layer: Layer, d: Path)
    requires d !in layer.directories && (d in layer.metadata ==> RemovedBy(init, layer, d))
    requires forall i :: 0 <= i < |init| ==>
               (Visible(init + [layer], i, d) <==> Visible(init, i, d) && d !in layer.metadata && !RemovedBy(init, layer, d))
    ensures Listed(init + [layer], d) <==> Listed(init, d) && !RemovedBy(init, layer, d)
    ensures Firm(init + [layer], d) <==> Firm(init, d) && !RemovedBy(init, layer, d)
  {
    var layers := init + [layer];
    forall i ensures ListedAt(layers, i, d) <==> ListedAt(init, i, d) && !RemovedBy(init, layer, d)
      ensures 0 <= i < |init| ==> layers[i] == init[i] && layers[..i] == init[..i]
    {
      assert 0 <= i < |init| ==> layers[i] == init[i] && layers[..i] == init[..i];
      assert i == |init| ==> layers[i] == layer;
    }
    if Firm(layers, d) {
      var i :| ListedAt(layers, i, d) && !Threatened(layers[..i], layers[i], d);
      assert ListedAt(init, i, d) && !Threatened(init[..i], init[i], d);
    }
    if Firm(init, d) && !RemovedBy(init, layer, d) {
      var i :| ListedAt(init, i, d) && !Threatened(init[..i], init[i], d);
      assert ListedAt(layers, i, d) && !Threatened(layers[..i], layers[i], d);
    }
    if Listed(layers, d) {
      var i :| ListedAt(layers, i, d);
      assert ListedAt(init, i, d);
    }
    if Listed(init, d) && !RemovedBy(init, layer, d) {
      var i :| ListedAt(init, i, d);
      assert ListedAt(layers, i, d);
    }
  }

  // ---- One layer ----

  ghost function LoopState(u: View, before: set<Path>, layer: Layer): DirectoryState {
    DirectoryState(Stored(Trim(u, Hidden(layer))), TrimSet(before, Hidden(layer)))
  }

  lemma HiddenIs(layer: Layer, p: Path)
    ensures p in Hidden(layer) <==> Marked(layer, p) || Replaced(layer, p)
  {
  }

  lemma ThreatIsOverhang(init: seq<Layer>, u: View, before: set<Path>, layer: Layer, d: Path)
    requires FoldsTo(init, u) && AllCoherent(init)
    ensures Overhung(LoopState(u, before, layer).stored, layer.directories, d) <==> Threatened(init, layer, d)
  {
    NewestLayerDecides(init, u);
    FoldAgrees(init, u);
    forall n
      ensures n in LoopState(u, before, layer).stored <==> HasContent(init, n) && !Marked(layer, n) && !Replaced(layer, n)
    {
      ContentIsStored(init, u, n);
      HiddenIs(layer, n);
    }
  }

  /** What the loop takes away under a path is what the layer's directories displace there. */
  lemma DisplacedInLoop(u: View, before: set<Path>, layer: Layer, d: Path)
    requires d !in Hidden(layer)
    ensures Displaced(Stored(u), layer, d) <==>
              exists n :: n in layer.directories && n in LoopState(u, before, layer).stored && n <= d
  {
    var s := LoopState(u, before, layer);
    if n :| n in layer.directories && n in s.stored && n <= d {
      assert n in layer.directories * Stored(u) && Under(n, d);
    }
    if Displaced(Stored(u), layer, d) {
      var n :| n in layer.directories * Stored(u) && Under(n, d);
      CoverIsUpward(layer, n, d);
      HiddenIs(layer, n);
      HiddenIs(layer, d);
      assert n in layer.directories && n in s.stored && n <= d;
    }
  }

  /** What one layer does to a directory that it does not list. */
  lemma UnlistedAfter(init: seq<Layer>, u: View, before: set<Path>, layer: Layer, order: seq<Path>, d: Path)
    requires FoldsTo(init, u) && AllCoherent(init) && IsOrder(order, layer.directories) && d !in layer.directories
    ensures d in DirectoriesAfter(u, before, layer, order) <==> d in before && !RemovedBy(init, layer, d)
  {
    RunOther(LoopState(u, before, layer), order, d);
    NewestLayerDecides(init, u);
    FoldAgrees(init, u);
    RemovalsMatch(init, u, layer, d);
    HiddenIs(layer, d);
    if d !in Hidden(layer) {
      DisplacedInLoop(u, before, layer, d);
    }
  }

  lemma FirmAfter(init: seq<Layer>, u: View, before: set<Path>, layer: Layer, order: seq<Path>, d: Path)
    requires FoldsTo(init, u) && AllCoherent(init) && IsOrder(order, layer.directories)
    requires d in layer.directories && !Threatened(init, layer, d)
    ensures d in DirectoriesAfter(u, before, layer, order)
  {
    ThreatIsOverhang(init, u, before, layer, d);
    RunOwn(LoopState(u, before, layer), order, d);
  }

  lemma OnlyListedAfter(init: seq<Layer>, u: View, before: set<Path>, layer: Layer, order: seq<Path>, d: Path)
    requires FoldsTo(init, u) && AllCoherent(init) && Coherent(layer) && IsOrder(order, layer.directories)
    requires (Firm(init, d) ==> d in before) && (d in before ==> Listed(init, d))
    ensures Firm(init + [layer], d) ==> d in DirectoriesAfter(u, before, layer, order)
    ensures d in DirectoriesAfter(u, before, layer, order) ==> Listed(init + [layer], d)
  {
    ListedOneMore(init, layer, d);
    if d in layer.directories {
      if !Threatened(init, layer, d) {
        FirmAfter(init, u, before, layer, order, d);
      }
    } else {
      UnlistedAfter(init, u, before, layer, order, d);
    }
  }

  // ---- All layers ----

  /** Whatever orders are taken, the directories remembered lie between the firm and the listed ones. */
  lemma {:induction false} RememberedBounds(layers: seq<Layer>, orders: seq<seq<Path>>, known: set<Path>)
    requires AllCoherent(layers) && |orders| == |layers| && Remembers(layers, orders, known)
    ensures forall d :: Firm(layers, d) ==> d in known
    ensures forall d :: d in known ==> Listed(layers, d)
    decreases |layers|
  {
    if layers != [] {
      var n := |layers| - 1;
      var init, layer := layers[..n], layers[n];
      assert layers == init + [layer];
      var u, before :| FoldsTo(init, u) && Remembers(init, orders[..n], before) &&
        known == DirectoriesAfter(u, before, layer, orders[n]);
      RememberedBounds(init, orders[..n], before);
      forall d ensures Firm(layers, d) ==> d in known ensures d in known ==> Listed(layers, d) {
        OnlyListedAfter(init, u, before, layer, orders[n], d);
      }
    }
  }

  ghost predicate KnowsFirm(layers: seq<Layer>, run: Run) {
    forall d :: d in run.known <==> Firm(layers, d)
  }

  ghost predicate KnowsListed(layers: seq<Layer>, run: Run) {
    forall d :: d in run.known <==> Listed(layers, d)
  }

  lemma LastLayer(layers: seq<Layer>, v: View) returns (init: seq<Layer>, layer: Layer, u: View)
    requires FoldsTo(layers, v) && AllCoherent(layers) && layers != []
    ensures layers == init + [layer] && |init| < |layers| && AllCoherent(init) && Coherent(layer)
    ensures FoldsTo(init, u) && Applies(u, layer, v)
  {
    init, layer := layers[..|layers| - 1], layers[|layers| - 1];
    assert FoldsOnto(init, layer, v);
    u :| FoldsTo(init, u) && Applies(u, layer, v);
  }

  /** Some choice of orders remembers the firm directories and no others. */
  lemma {:induction false} FirmestRun(layers: seq<Layer>, v: View) returns (run: Run)
    requires FoldsTo(layers, v) && AllCoherent(layers)
    ensures Runs(layers, run) && run.view == v && KnowsFirm(layers, run)
    decreases |layers|
  {
    if layers == [] {
      return NO_RUN;
    }
    var init, layer, u := LastLayer(layers, v);
    var earlier := FirmestRun(init, u);
    var order := FewestRemembered(LoopState(u, earlier.known, layer), layer.directories);
    var known := DirectoriesAfter(u, earlier.known, layer, order);
    RunSnoc(init, earlier, layer, order, v);
    run := Run(v, earlier.orders + [order], known);
    forall d ensures d in known <==> Firm(layers, d) {
      ListedOneMore(init, layer, d);
      if d in layer.directories {
        ThreatIsOverhang(init, u, earlier.known, layer, d);
        if !Threatened(init, layer, d) {
          FirmAfter(init, u, earlier.known, layer, order, d);
        }
      } else {
        UnlistedAfter(init, u, earlier.known, layer, order, d);
      }
    }
  }

  /** Some choice of orders remembers every listed directory. */
  lemma {:induction false} FullestRun(layers: seq<Layer>, v: View) returns (run: Run)
    requires FoldsTo(layers, v) && AllCoherent(layers)
    ensures Runs(layers, run) && run.view == v && KnowsListed(layers, run)
    decreases |layers|
  {
    if layers == [] {
      return NO_RUN;
    }
    var init, layer, u := LastLayer(layers, v);
    var earlier := FullestRun(init, u);
    var order := MostRemembered(LoopState(u, earlier.known, layer), layer.directories);
    var known := DirectoriesAfter(u, earlier.known, layer, order);
    RunSnoc(init, earlier, layer, order, v);
    run := Run(v, earlier.orders + [order], known);
    forall d ensures d in known <==> Listed(layers, d) {
      ListedOneMore(init, layer, d);
      if d !in layer.directories {
        UnlistedAfter(init, u, earlier.known, layer, order, d);
      }
    }
  }

  /** A directory is remembered by every run exactly when it is firm, and by some run exactly when it is
      listed. */
  lemma RememberedExactly(layers: seq<Layer>, v: View, d: Path)
    requires FoldsTo(layers, v) && AllCoherent(layers)
    ensures Firm(layers, d) <==> forall run :: Runs(layers, run) ==> d in run.known
    ensures Listed(layers, d) <==> exists run :: Runs(layers, run) && d in run.known
  {
    var least := FirmestRun(layers, v);
    var most := FullestRun(layers, v);
    forall run | Runs(layers, run) ensures Firm(layers, d) ==> d in run.known ensures d in run.known ==> Listed(layers, d) {
      RememberedBounds(layers, run.orders, run.known);
    }
    assert d in least.known <==> Firm(layers, d);
    assert d in most.known <==> Listed(layers, d);
  }

  // ---- Acceptance ----

  /** The links of the final image all end, given the directories that the run remembers. */
  ghost predicate AcceptedAfter(run: Run) {
    LinksEnd(run.view, run.known + Ancestors(Stored(run.view)))
  }

  /** The visible paths whose newest record is a directory. */
  ghost function ListedPaths(layers: seq<Layer>, v: View): set<Path> {
    set d | d in v.entries && Listed(layers, d)
  }

  ghost predicate EndsAt(v: View, link: Path, n: nat, d: Path) {
    link in v.links && Walk(LeafGraph(v.files, v.links, {}), link, n) == Some(d)
  }

  /** The chain of some link ends in a threatened directory that no stored path implies. */
  ghost predicate NeedsThreatened(layers: seq<Layer>, v: View) {
    exists link, n: nat, d ::
      EndsAt(v, link, n, d) && Listed(layers, d) && !Firm(layers, d) && d !in Ancestors(Stored(v))
  }

  lemma SameWalk(v: View, a: set<Path>, b: set<Path>, link: Path, n: nat)
    ensures Walk(LeafGraph(v.files, v.links, a), link, n) == Walk(LeafGraph(v.files, v.links, b), link, n)
  {
    WalksAlike(LeafGraph(v.files, v.links, a), LeafGraph(v.files, v.links, b), link, n);
  }

  /** Remembering more never makes a link dangle. */
  lemma MoreLinksEnd(v: View, a: set<Path>, b: set<Path>)
    requires a <= b && LinksEnd(v, a)
    ensures LinksEnd(v, b)
  {
    var g, h := LeafGraph(v.files, v.links, a), LeafGraph(v.files, v.links, b);
    forall name | name in v.links ensures Succeeds(h, name) {
      assert Succeeds(g, name);
      var n: nat :| Walk(g, name, n).Some? && Walk(g, name, n).value in g.base;
      SameWalk(v, a, b, name, n);
      assert Walk(h, name, n).value in h.base;
    }
  }

  lemma ListedAtIsNotStored(layers: seq<Layer>, v: View, i: int, d: Path)
    requires ExplainsAt(layers, v, d) && AgreeAt(v, d) && ListedAt(layers, i, d) && Coherent(layers[i])
    ensures d in v.entries && d !in v.files && d !in v.links
  {
    assert RecordedAs(layers, i, d, v.entries[d]);
  }

  lemma ListedIsNotStored(layers: seq<Layer>, v: View, d: Path)
    requires FoldsTo(layers, v) && AllCoherent(layers) && Listed(layers, d)
    ensures d in v.entries && d !in v.files && d !in v.links
  {
    NewestLayerDecides(layers, v);
    FoldAgrees(layers, v);
    var i :| ListedAt(layers, i, d);
    ListedAtIsNotStored(layers, v, i, d);
  }

  lemma FullestKnows(layers: seq<Layer>, v: View, run: Run)
    requires FoldsTo(layers, v) && AllCoherent(layers) && KnowsListed(layers, run)
    ensures run.known == ListedPaths(layers, v)
  {
    forall d ensures d in run.known <==> d in ListedPaths(layers, v) {
      if Listed(layers, d) {
        ListedIsNotStored(layers, v, d);
      }
    }
  }

  /** A link that needs a threatened directory dangles in the run that remembers only the firm ones. */
  lemma ThreatenedDangles(layers: seq<Layer>, v: View, firmest: Run)
    requires FoldsTo(layers, v) && AllCoherent(layers) && firmest.view == v && KnowsFirm(layers, firmest)
    requires NeedsThreatened(layers, v)
    ensures !AcceptedAfter(firmest)
  {
    var known := firmest.known + Ancestors(Stored(v));
    var link, n: nat, d :|
      EndsAt(v, link, n, d) && Listed(layers, d) && !Firm(layers, d) && d !in Ancestors(Stored(v));
    var g := LeafGraph(v.files, v.links, known);
    SameWalk(v, {}, known, link, n);
    ListedIsNotStored(layers, v, d);
    assert DanglesAt(g, link, n);
    FailureIsExclusive(g, link, Unresolvable);
    assert link in v.links && !Succeeds(g, link);
  }

  /** If no link needs a threatened directory, the firm ones are enough. */
  lemma FirmIsEnough(layers: seq<Layer>, v: View, fullest: Run, firmest: Run)
    requires fullest.view == v && firmest.view == v && KnowsListed(layers, fullest) && KnowsFirm(layers, firmest)
    requires AcceptedAfter(fullest) && !NeedsThreatened(layers, v)
    ensures AcceptedAfter(firmest)
  {
    var a, b := fullest.known + Ancestors(Stored(v)), firmest.known + Ancestors(Stored(v));
    var g, h := LeafGraph(v.files, v.links, a), LeafGraph(v.files, v.links, b);
    forall name | name in v.links ensures Succeeds(h, name) {
      assert Succeeds(g, name);
      var n: nat :| Walk(g, name, n).Some? && Walk(g, name, n).value in g.base;
      var end := Walk(g, name, n).value;
      SameWalk(v, a, b, name, n);
      SameWalk(v, a, {}, name, n);
      assert EndsAt(v, name, n, end);
      assert end in h.base;
    }
  }

  ghost predicate AlwaysAlike(layers: seq<Layer>) {
    forall a, b :: Runs(layers, a) && Runs(layers, b) ==> (AcceptedAfter(a) <==> AcceptedAfter(b))
  }

  /** Every run lies between the one that remembers least and the one that remembers most. */
  lemma BetweenExtremes(layers: seq<Layer>, firmest: Run, run: Run, fullest: Run)
    requires AllCoherent(layers) && Runs(layers, firmest) && Runs(layers, run) && Runs(layers, fullest)
    requires KnowsFirm(layers, firmest) && KnowsListed(layers, fullest)
    ensures AcceptedAfter(firmest) ==> AcceptedAfter(run)
    ensures AcceptedAfter(run) ==> AcceptedAfter(fullest)
  {
    FoldUnique(layers, firmest.view, run.view);
    FoldUnique(layers, run.view, fullest.view);
    RememberedBounds(layers, run.orders, run.known);
    var above := Ancestors(Stored(run.view));
    assert firmest.known + above <= run.known + above && run.known + above <= fullest.known + above;
    if AcceptedAfter(firmest) {
      MoreLinksEnd(run.view, firmest.known + above, run.known + above);
    }
    if AcceptedAfter(run) {
      MoreLinksEnd(run.view, run.known + above, fullest.known + above);
    }
  }

  /** Exactly when the orders do not decide acceptance: the links do not all end even with every listed
      directory remembered, or no link needs a threatened one. */
  lemma AcceptanceOrderFreeExactly(layers: seq<Layer>, v: View)
    requires FoldsTo(layers, v) && AllCoherent(layers)
    ensures AlwaysAlike(layers) <==>
              !LinksEnd(v, ListedPaths(layers, v) + Ancestors(Stored(v))) || !NeedsThreatened(layers, v)
  {
    var firmest := FirmestRun(layers, v);
    var fullest := FullestRun(layers, v);
    FullestKnows(layers, v, fullest);
    if AcceptedAfter(fullest) {
      if NeedsThreatened(layers, v) {
        ThreatenedDangles(layers, v, firmest);
      } else {
        FirmIsEnough(layers, v, fullest, firmest);
      }
    }
    forall run | Runs(layers, run)
      ensures AcceptedAfter(firmest) ==> AcceptedAfter(run)
      ensures AcceptedAfter(run) ==> AcceptedAfter(fullest)
    {
      BetweenExtremes(layers, firmest, run, fullest);
    }
  }

  // ---- An image that is accepted or refused ----

  const ROOT_OWNED := Attributes(0, 0, 0)
  const EMPTY_FILE := Entry(File, ROOT_OWNED, Some([]), None)
  const PLAIN_DIRECTORY := Entry(Directory, ROOT_OWNED, None, None)
  const LINK_INSIDE := Entry(Symlink, ROOT_OWNED, None, Some("/a/b"))

  /** A lower layer has a file `a`; the next turns it into a directory with an empty directory `a/b`
      and links to that directory. */
  const BELOW := View(map[["a"] := []], map[], map[["a"] := EMPTY_FILE])
  const ABOVE := Layer(map[], map[["l"] := Link("/a/b", false)], {["a"], ["a", "b"]},
                       map[["a"] := PLAIN_DIRECTORY, ["a", "b"] := PLAIN_DIRECTORY, ["l"] := LINK_INSIDE], {}, {})

  const DECIDED := View(map[], ABOVE.links, ABOVE.metadata)

  lemma AboveHasNoHardlinks()
    ensures Hardlinks(ABOVE).Keys == {} && Symlinks(ABOVE) == ABOVE.links
  {
  }

  lemma AboveTakesNoLink()
    ensures !TraversesLink(BELOW, ABOVE)
  {
    forall name, k: nat | name in Incoming(ABOVE) && 0 < k < |name|
      ensures name[..k] !in ABOVE.links && name[..k] !in BELOW.links
    {
      assert name[..k] == ["a"];
    }
  }

  lemma AboveRemovesFile()
    ensures Kept(BELOW, ABOVE) == EMPTY_VIEW
  {
    assert ["a"] in ABOVE.directories * Stored(BELOW) && Under(["a"], ["a"]);
    assert Displaced(Stored(BELOW), ABOVE, ["a"]);
    assert ["a"] in Gone(Stored(BELOW), ABOVE);
  }

  lemma AboveIsAccepted()
    ensures Accepts(BELOW, ABOVE) && Applies(BELOW, ABOVE, DECIDED)
  {
    AboveHasNoHardlinks();
    AboveTakesNoLink();
    AboveRemovesFile();
    var g := HardlinkGraph(BELOW, ABOVE);
    assert g.next.Keys == {};
    BaseResolves(g);
    assert Resolution(BELOW, ABOVE, g.base);
    assert Overlay(BELOW, ABOVE, g.base) == DECIDED;
  }

  lemma LinkInsideGoesTo(known: set<Path>)
    ensures var g := LeafGraph(DECIDED.files, DECIDED.links, known);
            && Walk(g, ["l"], 1) == Some(["a", "b"])
            && (["a", "b"] in g.base <==> ["a", "b"] in known)
            && ["a", "b"] !in g.next
  {
    var g := LeafGraph(DECIDED.files, DECIDED.links, known);
    assert Plain("a") && Plain("b");
    LinkTarget.RootedLinkFindsItsPath(["l"], ["a", "b"], false);
    assert ["a", "b"][1..] == ["b"];
    assert Join(["a", "b"]) == "a/b";
    assert "/" + "a/b" == "/a/b";
    assert g.next[["l"]] == To(["a", "b"]);
    assert Walk(g, ["l"], 0) == Some(["l"]);
  }

  const LOWER := Layer(map[["a"] := []], map[], {}, map[["a"] := EMPTY_FILE], {}, {})

  const IMAGE := [
    Blob(1, [Member("a", RegularMember, ROOT_OWNED, 0, [], "")]),
    Blob(1, [Member("a", DirectoryMember, ROOT_OWNED, 0, [], ""),
             Member("a/b", DirectoryMember, ROOT_OWNED, 0, [], ""),
             Member("l", SymlinkMember, ROOT_OWNED, 0, [], "/a/b")])]

  /** A joined path of plain names is read back as that path. */
  lemma NameIsRead(p: Path)
    requires p != [] && AllPlain(p)
    ensures StripSlashes(Join(p)) == Join(p) != "" && MemberPath(Join(p)) == Some(p)
  {
    var s := Join(p);
    assert !Plain(".") && !Plain("");
    SegmentsJoin(p);
    PlainSegmentsAreSafe(s);
    assert Segments("") == [""] && Segments(".") == ["."] by {
      SegmentsSlashless("");
      SegmentsSlashless(".");
    }
    assert s != "." && s != "" by {
      assert "." in ["."] && "" in [""];
    }
  }

  lemma ImageNames()
    ensures MemberPath("a") == Some(["a"]) && MemberPath("l") == Some(["l"]) && MemberPath("a/b") == Some(["a", "b"])
    ensures StripSlashes("a") == "a" && StripSlashes("l") == "l" && StripSlashes("a/b") == "a/b"
  {
    assert Plain("a") && Plain("b") && Plain("l");
    NameIsRead(["a"]);
    NameIsRead(["l"]);
    NameIsRead(["a", "b"]);
    assert ["a", "b"][1..] == ["b"];
    assert Join(["a", "b"]) == "a" + "/" + "b" == "a/b";
  }

  lemma ImageRoles()
    ensures Roles(IMAGE[0].members) == [MakesFile(["a"], [], EMPTY_FILE, 0)]
    ensures Roles(IMAGE[1].members) ==
              [MakesDirectory(["a"], PLAIN_DIRECTORY), MakesDirectory(["a", "b"], PLAIN_DIRECTORY),
               MakesLink(["l"], Link("/a/b", false), LINK_INSIDE, 0)]
  {
    ImageNames();
    assert Basename(["a"]) == "a" && Basename(["a", "b"]) == "b" && Basename(["l"]) == "l";
    assert |WHITEOUT_PREFIX| == 4 && |OPAQUE_MARKER| == 12;
  }

  /** Three members, read one after the other. */
  lemma ScannedThree(a: Role, b: Role, c: Role)
    ensures Scanned([a, b, c]) == Add(Add(Add(EMPTY_LAYER, a), b), c)
    ensures Carried([a, b, c]) == Carries(a) + Carries(b) + Carries(c)
  {
    ScannedOne(a);
    assert [a, b][..1] == [a] && [a, b, c][..2] == [a, b];
  }

  lemma ScannedOne(a: Role)
    ensures Scanned([a]) == Add(EMPTY_LAYER, a) && Carried([a]) == Carries(a)
  {
    assert [a][..0] == [];
  }

  lemma UpperIsAbove()
    ensures Scanned(Roles(IMAGE[1].members)) == ABOVE && Carried(Roles(IMAGE[1].members)) == 0
  {
    ImageRoles();
    var roles := Roles(IMAGE[1].members);
    ScannedThree(roles[0], roles[1], roles[2]);
    var made := Add(Add(EMPTY_LAYER, roles[0]), roles[1]);
    assert made.directories == {["a"], ["a", "b"]};
    assert Add(made, roles[2]).metadata == ABOVE.metadata;
  }

  lemma LowerIsLower()
    ensures Scanned(Roles(IMAGE[0].members)) == LOWER && Carried(Roles(IMAGE[0].members)) == 0
  {
    ImageRoles();
    ScannedOne(Roles(IMAGE[0].members)[0]);
  }

  lemma LowerAccepted(before: Totals)
    requires before.members <= 1 && before.expanded == 0
    ensures Accepted(Roles(IMAGE[0].members), before)
  {
    ImageRoles();
    LowerIsLower();
  }

  lemma ThreeAccepted(a: Role, b: Role, c: Role, before: Totals)
    requires Names(a) && Names(b) && Names(c) && a.path != b.path && a.path != c.path && b.path != c.path
    requires Carries(a) == Carries(b) == Carries(c) == 0 && before.members <= 1 && before.expanded == 0
    ensures Accepted([a, b, c], before)
  {
    ScannedThree(a, b, c);
  }

  lemma UpperAccepted(before: Totals)
    requires before.members <= 1 && before.expanded == 0
    ensures Accepted(Roles(IMAGE[1].members), before)
  {
    ImageRoles();
    assert ["a"][0] != ["l"][0] && |["a"]| != |["a", "b"]| && |["l"]| != |["a", "b"]|;
    var roles := Roles(IMAGE[1].members);
    ThreeAccepted(roles[0], roles[1], roles[2], before);
  }

  lemma ImageLayers()
    ensures Layers(IMAGE) == [LOWER, ABOVE] && Readable(IMAGE)
  {
    LowerIsLower();
    UpperIsAbove();
    var first := [IMAGE[0]];
    assert IMAGE == first + [IMAGE[1]] && first == [] + [IMAGE[0]] && IMAGE[..1] == first && first[..0] == [];
    LowerAccepted(TotalsOf([]));
    ReadableStep([], IMAGE[0]);
    TotalsStep([], IMAGE[0]);
    UpperAccepted(TotalsOf(first));
    ReadableStep(first, IMAGE[1]);
  }

  lemma ImageIsCoherent()
    ensures AllCoherent([LOWER, ABOVE])
  {
    LowerAccepted(Totals(0, 0));
    UpperAccepted(Totals(0, 0));
    LowerIsLower();
    UpperIsAbove();
    RolesWellFormed(IMAGE[0].members);
    RolesWellFormed(IMAGE[1].members);
    ScannedCoherent(Roles(IMAGE[0].members));
    ScannedCoherent(Roles(IMAGE[1].members));
  }

  lemma LowerGivesBelow()
    ensures FoldsTo([LOWER], BELOW)
  {
    var g := HardlinkGraph(EMPTY_VIEW, LOWER);
    assert g.next.Keys == {};
    BaseResolves(g);
    assert Hardlinks(LOWER).Keys == {} && Symlinks(LOWER) == map[];
    assert Kept(EMPTY_VIEW, LOWER) == EMPTY_VIEW;
    assert Resolution(EMPTY_VIEW, LOWER, g.base);
    assert Overlay(EMPTY_VIEW, LOWER, g.base) == BELOW;
    assert !TraversesLink(EMPTY_VIEW, LOWER);
    assert FoldsTo([], EMPTY_VIEW);
    FoldSnoc([], EMPTY_VIEW, LOWER, BELOW);
    assert [] + [LOWER] == [LOWER];
  }

  lemma ImageFolds()
    ensures FoldsTo([LOWER, ABOVE], DECIDED)
  {
    LowerGivesBelow();
    AboveIsAccepted();
    FoldSnoc([LOWER], BELOW, ABOVE, DECIDED);
    assert [LOWER] + [ABOVE] == [LOWER, ABOVE];
  }

  /** `a/b` is listed by the upper layer below `a`, which takes the place of the lower file. */
  lemma InnerIsThreatened()
    ensures Listed([LOWER, ABOVE], ["a", "b"]) && !Firm([LOWER, ABOVE], ["a", "b"])
  {
    ImageIsCoherent();
    ListedOneMore([LOWER], ABOVE, ["a", "b"]);
    assert [LOWER] + [ABOVE] == [LOWER, ABOVE];
    assert Visible([LOWER], 0, ["a"]) && HasContent([LOWER], ["a"]);
    assert !Replaced(ABOVE, ["a"]) by {
      assert ABOVE.files.Keys + ABOVE.links.Keys == {["l"]};
      assert ["l"][0] != ["a"][0];
    }
    assert ["a"] < ["a", "b"] && ["a"] in ABOVE.directories;
  }

  lemma NothingIsImplied()
    ensures Ancestors(Stored(DECIDED)) == {}
  {
    assert Stored(DECIDED) == {["l"]};
  }

  lemma InnerIsNeeded()
    ensures NeedsThreatened([LOWER, ABOVE], DECIDED) && LinksEnd(DECIDED, {["a", "b"]})
  {
    InnerIsThreatened();
    NothingIsImplied();
    LinkInsideGoesTo({});
    assert EndsAt(DECIDED, ["l"], 1, ["a", "b"]);
    LinkInsideGoesTo({["a", "b"]});
  }

  lemma AcceptingRun(layers: seq<Layer>, v: View, d: Path) returns (run: Run)
    requires FoldsTo(layers, v) && AllCoherent(layers) && Listed(layers, d) && LinksEnd(v, {d})
    ensures Runs(layers, run) && AcceptedAfter(run)
  {
    run := FullestRun(layers, v);
    assert d in run.known;
    MoreLinksEnd(v, {d}, run.known + Ancestors(Stored(v)));
  }

  lemma RefusingRun(layers: seq<Layer>, v: View) returns (run: Run)
    requires FoldsTo(layers, v) && AllCoherent(layers) && NeedsThreatened(layers, v)
    ensures Runs(layers, run) && !AcceptedAfter(run)
  {
    run := FirmestRun(layers, v);
    ThreatenedDangles(layers, v, run);
  }

  lemma ImageMeets(layers: seq<Layer>, v: View)
    requires layers == [LOWER, ABOVE] && v == DECIDED
    ensures FoldsTo(layers, v) && AllCoherent(layers) && NeedsThreatened(layers, v)
    ensures Listed(layers, ["a", "b"]) && LinksEnd(v, {["a", "b"]})
  {
    ImageIsCoherent();
    ImageFolds();
    InnerIsThreatened();
    InnerIsNeeded();
  }

  /** An image whose two layers can be read and folded, and two runs over them: one accepts it, the other
      refuses it.  Listed first, `a/b` is forgotten when `a` replaces the lower file. */
  lemma AcceptanceDependsOnOrder() returns (accepting: Run, refusing: Run)
    ensures Readable(IMAGE) && Foldable(Layers(IMAGE))
    ensures Runs(Layers(IMAGE), accepting) && Runs(Layers(IMAGE), refusing)
    ensures AcceptedAfter(accepting) && !AcceptedAfter(refusing)
  {
    ImageLayers();
    ImageMeets(Layers(IMAGE), DECIDED);
    FoldableSnoc(Layers(IMAGE), DECIDED);
    accepting := AcceptingRun(Layers(IMAGE), DECIDED, ["a", "b"]);
    refusing := RefusingRun(Layers(IMAGE), DECIDED);
  }
}

/** Which layer decides each path: the pointwise meaning of the overlay, and what does and does not
    depend on the order in which a set of directory names is visited. */
module OciProvenance {
  import opened Common
  import opened Paths
  import opened OciLayer
  import opened OciFold
  import opened Chains

  /** The layers, applied in order to an empty image, give `v`. */
  ghost predicate FoldsTo(layers: seq<Layer>, v: View)
    decreases |layers|, 0
  {
    if layers == [] then v == EMPTY_VIEW else FoldsOnto(layers[..|layers| - 1], layers[|layers| - 1], v)
  }

  ghost predicate FoldsOnto(below: seq<Layer>, layer: Layer, v: View)
    decreases |below|, 1
  {
    exists u {:trigger Applies(u, layer, v)} :: FoldsTo(below, u) && Applies(u, layer, v)
  }

  ghost predicate AllCoherent(layers: seq<Layer>) {
    forall i :: 0 <= i < |layers| ==> Coherent(layers[i])
  }

  // ---- The pointwise reference: the newest layer that records a path decides ----

  /** Layer `i` is the newest to record `p`, and no newer layer removes it. */
  ghost predicate Visible(layers: seq<Layer>, i: int, p: Path)
    decreases |layers|, 0
  {
    && 0 <= i < |layers|
    && p in layers[i].metadata
    && forall j :: i < j < |layers| ==> p !in layers[j].metadata && !RemovedBy(layers[..j], layers[j], p)
  }

  /** `p` has a file or link at `n`, going by the layers alone. */
  ghost predicate HasContent(layers: seq<Layer>, n: Path)
    decreases |layers|, 1
  {
    exists i :: Visible(layers, i, n) && layers[i].metadata[n].kind != Directory
  }

  /** `layer` removes what lies at `p`: by a whiteout or opaque marker, by a file or link of its own at
      or above `p`, or by a directory of its own at or above `p` that takes the place of content. */
  ghost predicate RemovedBy(below: seq<Layer>, layer: Layer, p: Path)
    decreases |below|, 2
  {
    || Marked(layer, p)
    || Replaced(layer, p)
    || exists n :: n in layer.directories && Under(n, p) && HasContent(below, n)
  }

  /** `e` is what layer `i` recorded at `p`; a hardlink also carries the bytes at the end of its chain. */
  ghost predicate RecordedAs(layers: seq<Layer>, i: int, p: Path, e: Entry)
    requires 0 <= i < |layers| && p in layers[i].metadata
  {
    var m := layers[i].metadata[p];
    if m.kind == Hardlink then
      && e.data.Some? && e == m.(data := e.data)
      && exists u :: FoldsTo(layers[..i], u) && Resolves(HardlinkGraph(u, layers[i]), p, e.data.value)
    else e == m
  }

  ghost predicate Shows(layers: seq<Layer>, p: Path) {
    exists i :: Visible(layers, i, p)
  }

  ghost predicate ExplainsAt(layers: seq<Layer>, v: View, p: Path) {
    && (p in v.entries <==> Shows(layers, p))
    && (p in v.entries ==> forall i :: Visible(layers, i, p) ==> RecordedAs(layers, i, p, v.entries[p]))
  }

  ghost predicate Explains(layers: seq<Layer>, v: View) {
    forall p :: ExplainsAt(layers, v, p)
  }

  lemma {:induction false} FoldAgrees(layers: seq<Layer>, v: View)
    requires FoldsTo(layers, v) && AllCoherent(layers)
    ensures Agree(v)
  {
    if layers != [] {
      var init, layer := layers[..|layers| - 1], layers[|layers| - 1];
      var u :| FoldsTo(init, u) && Applies(u, layer, v);
      FoldAgrees(init, u);
      var all :| Resolution(u, layer, all) && v == Overlay(u, layer, all);
      OverlayAgrees(u, layer, all);
    }
  }

  lemma VisibleOneMore(init: seq<Layer>, layer: Layer, i: int, p: Path)
    ensures 0 <= i < |init| ==>
              (Visible(init + [layer], i, p) <==>
               Visible(init, i, p) && p !in layer.metadata && !RemovedBy(init, layer, p))
    ensures Visible(init + [layer], |init|, p) <==> p in layer.metadata
  {
    var layers := init + [layer];
    assert layers[..|init|] == init;
    assert forall j :: 0 <= j < |init| ==> layers[j] == init[j] && layers[..j] == init[..j];
    if 0 <= i < |init| && Visible(layers, i, p) {
      forall j | i < j < |init| ensures p !in init[j].metadata && !RemovedBy(init[..j], init[j], p) {
        assert layers[j] == init[j];
      }
    }
  }

  lemma ContentIsStored(layers: seq<Layer>, v: View, n: Path)
    requires Explains(layers, v) && Agree(v)
    ensures HasContent(layers, n) <==> n in Stored(v)
  {
    assert AgreeAt(v, n) && ExplainsAt(layers, v, n);
    if n in Stored(v) {
      var i :| Visible(layers, i, n);
      assert RecordedAs(layers, i, n, v.entries[n]);
    }
    if HasContent(layers, n) {
      var i :| Visible(layers, i, n) && layers[i].metadata[n].kind != Directory;
      assert RecordedAs(layers, i, n, v.entries[n]);
    }
  }

  lemma RemovalsMatch(layers: seq<Layer>, v: View, layer: Layer, p: Path)
    requires Explains(layers, v) && Agree(v)
    ensures RemovedBy(layers, layer, p) <==> Removes(Stored(v), layer, p)
  {
    forall n | n in layer.directories ensures HasContent(layers, n) <==> n in Stored(v) {
      ContentIsStored(layers, v, n);
    }
    if Displaced(Stored(v), layer, p) {
      var n :| n in layer.directories * Stored(v) && Under(n, p);
      assert n in layer.directories && Under(n, p) && HasContent(layers, n);
    }
    if exists n :: n in layer.directories && Under(n, p) && HasContent(layers, n) {
      var n :| n in layer.directories && Under(n, p) && HasContent(layers, n);
      assert n in layer.directories * Stored(v);
    }
  }

  /** One more layer, at a path it records. */
  lemma ExplainsRecorded(init: seq<Layer>, u: View, layer: Layer, all: map<Path, Bytes>, p: Path)
    requires FoldsTo(init, u) && Coherent(layer) && Resolution(u, layer, all) && p in layer.metadata
    ensures ExplainsAt(init + [layer], Overlay(u, layer, all), p)
  {
    var layers, v := init + [layer], Overlay(u, layer, all);
    assert layers[..|init|] == init && layers[|init|] == layer;
    VisibleOneMore(init, layer, |init|, p);
    assert Visible(layers, |init|, p);
    assert v.entries[p] == Metadata(layer, all)[p];
    if p in Hardlinks(layer) {
      assert Resolves(HardlinkGraph(u, layer), p, all[p]);
    }
    assert RecordedAs(layers, |init|, p, v.entries[p]);
    forall i | Visible(layers, i, p) ensures i == |init| {
      VisibleOneMore(init, layer, i, p);
    }
  }

  /** One more layer, at a path it does not record. */
  lemma ExplainsInherited(init: seq<Layer>, u: View, layer: Layer, all: map<Path, Bytes>, p: Path)
    requires Explains(init, u) && Agree(u)
    requires Coherent(layer) && Hardlinks(layer).Keys <= all.Keys && p !in layer.metadata
    ensures ExplainsAt(init + [layer], Overlay(u, layer, all), p)
  {
    var layers, v := init + [layer], Overlay(u, layer, all);
    RemovalsMatch(init, u, layer, p);
    assert ExplainsAt(init, u, p);
    assert p in v.entries <==> p in u.entries && !Removes(Stored(u), layer, p);
    if Shows(layers, p) {
      var i :| Visible(layers, i, p);
      VisibleOneMore(init, layer, i, p);
      VisibleOneMore(init, layer, |init|, p);
      assert Visible(init, i, p);
    }
    if p in v.entries {
      var i :| Visible(init, i, p);
      VisibleOneMore(init, layer, i, p);
      assert Visible(layers, i, p);
      forall k | Visible(layers, k, p) ensures RecordedAs(layers, k, p, v.entries[p]) {
        VisibleOneMore(init, layer, k, p);
        VisibleOneMore(init, layer, |init|, p);
        assert layers[..k] == init[..k] && layers[k] == init[k];
      }
    }
  }

  /** The pointwise meaning of the overlay: a path is present exactly when some layer records it and no
      newer layer records or removes it, and then it is what that newest layer recorded. */
  lemma {:induction false} NewestLayerDecides(layers: seq<Layer>, v: View)
    requires FoldsTo(layers, v) && AllCoherent(layers)
    ensures Explains(layers, v)
  {
    if layers == [] {
      return;
    }
    var init, layer := layers[..|layers| - 1], layers[|layers| - 1];
    var u :| FoldsTo(init, u) && Applies(u, layer, v);
    NewestLayerDecides(init, u);
    FoldAgrees(init, u);
    assert layers == init + [layer];
    var all :| Resolution(u, layer, all) && v == Overlay(u, layer, all);
    forall p ensures ExplainsAt(layers, v, p) {
      if p in layer.metadata {
        ExplainsRecorded(init, u, layer, all, p);
      } else {
        ExplainsInherited(init, u, layer, all, p);
      }
    }
  }

  /** In terms of stored bytes: a regular file's bytes are those of the newest layer that records it. */
  lemma StoredBytes(layers: seq<Layer>, v: View, i: int, p: Path)
    requires FoldsTo(layers, v) && AllCoherent(layers) && Visible(layers, i, p)
    ensures p in layers[i].files ==> p in v.files && v.files[p] == layers[i].files[p]
    ensures p in v.links <==> layers[i].metadata[p].kind == Symlink
    ensures p in v.links ==> p in layers[i].links && v.links[p].target == layers[i].links[p].target
  {
    NewestLayerDecides(layers, v);
    FoldAgrees(layers, v);
    assert AgreeAt(v, p) && ExplainsAt(layers, v, p);
    assert RecordedAs(layers, i, p, v.entries[p]);
  }

  /** A layer's own whiteouts and opaque markers never hide its own members. */
  lemma OwnMembersSurvive(layers: seq<Layer>, v: View, p: Path)
    requires FoldsTo(layers, v) && AllCoherent(layers) && layers != []
    requires p in layers[|layers| - 1].metadata
    ensures p in v.entries && RecordedAs(layers, |layers| - 1, p, v.entries[p])
  {
    NewestLayerDecides(layers, v);
    assert Visible(layers, |layers| - 1, p) && ExplainsAt(layers, v, p);
  }

  // ---- Order ----

  /** Whatever order hardlinks and directories are visited in, a layer gives the same tables. */
  lemma AppliesUnique(v: View, layer: Layer, a: View, b: View)
    requires Applies(v, layer, a) && Applies(v, layer, b)
    ensures a == b
  {
    var x :| Resolution(v, layer, x) && a == Overlay(v, layer, x);
    var y :| Resolution(v, layer, y) && b == Overlay(v, layer, y);
    ResolutionUnique(v, layer, x, y);
  }

  lemma ResolutionUnique(v: View, layer: Layer, x: map<Path, Bytes>, y: map<Path, Bytes>)
    requires Resolution(v, layer, x) && Resolution(v, layer, y)
    ensures Overlay(v, layer, x) == Overlay(v, layer, y)
  {
    forall p | p in Hardlinks(layer) ensures x[p] == y[p] {
      MemosAgree(HardlinkGraph(v, layer), x, y, p);
    }
    SameContent(layer, x, y);
  }

  lemma SameContent(layer: Layer, x: map<Path, Bytes>, y: map<Path, Bytes>)
    requires Hardlinks(layer).Keys <= x.Keys && Hardlinks(layer).Keys <= y.Keys
    requires forall p :: p in Hardlinks(layer) ==> x[p] == y[p]
    ensures Content(layer, x) == Content(layer, y)
    ensures Metadata(layer, x) == Metadata(layer, y)
  {
    assert x - (x.Keys - Hardlinks(layer).Keys) == y - (y.Keys - Hardlinks(layer).Keys);
  }

  lemma {:induction false} FoldUnique(layers: seq<Layer>, a: View, b: View)
    requires FoldsTo(layers, a) && FoldsTo(layers, b)
    ensures a == b
  {
    if layers != [] {
      var init, layer := layers[..|layers| - 1], layers[|layers| - 1];
      var u :| FoldsTo(init, u) && Applies(u, layer, a);
      var w :| FoldsTo(init, w) && Applies(w, layer, b);
      FoldUnique(init, u, w);
      AppliesUnique(u, layer, a, b);
    }
  }
}

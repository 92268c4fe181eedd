/** The end of `_oci_snapshot`: links are resolved, implied parents are recorded, and the whole run
    over a sequence of layers is tied to the pointwise meaning of the overlay. */
module OciSnapshot {
  import opened Common
  import opened Paths
  import opened Links
  import opened OciLayer
  import opened OciFold
  import opened OciProvenance
  import opened Chains

  const MAX_OCI_COMPRESSED_BYTES: nat := 512 * 1024 * 1024

  datatype Leaf = Contents(data: Bytes) | DirectoryLeaf

  predicate HasContents(leaf: Leaf) {
    leaf.Contents?
  }

  datatype Snapshot = Snapshot(files: map<Path, Bytes>, entries: map<Path, Entry>)

  datatype Blob = Blob(compressed: nat, members: seq<Member>)

  const IMPLIED_DIRECTORY := Entry(Directory, Attributes(0x1ed, 0, 0), None, None)

  /** The proper ancestors of the stored names, `.` and `/` excluded. */
  function Ancestors(names: set<Path>): set<Path> {
    set name, k: nat | name in names && 0 < k < |name| :: name[..k]
  }

  /** A symlink reads a file first, then another link, then a directory. */
  function LeafGraph(files: map<Path, Bytes>, links: map<Path, Link>, directories: set<Path>): Graph<Path, Leaf> {
    LinkGraph(map p | p in files.Keys + (directories - links.Keys) ::
                if p in files then Contents(files[p]) else DirectoryLeaf,
              links, true)
  }

  ghost predicate ReachesBytes(v: View, p: Path) {
    exists b :: Resolves(LeafGraph(v.files, v.links, {}), p, Contents(b))
  }

  /** The returned file at `p`: stored bytes, or the bytes a link's chain ends in, or nothing. */
  ghost predicate FileAt(v: View, files: map<Path, Bytes>, p: Path) {
    && (p in files <==> p in v.files || (p in v.links && ReachesBytes(v, p)))
    && (p in v.files ==> files[p] == v.files[p])
    && (p in v.links && p in files ==> Resolves(LeafGraph(v.files, v.links, {}), p, Contents(files[p])))
  }

  /** What is returned, without mentioning the remembered directories. */
  ghost predicate SnapshotOf(v: View, s: Snapshot) {
    && (forall p :: FileAt(v, s.files, p))
    && s.entries == (map d | d in Ancestors(Stored(v)) :: IMPLIED_DIRECTORY) + v.entries
  }

  /** Links that reach bytes reach the same bytes whatever directories are remembered. */
  lemma BytesIgnoreDirectories(files: map<Path, Bytes>, links: map<Path, Link>,
                               a: set<Path>, b: set<Path>, p: Path, data: Bytes)
    requires files.Keys !! links.Keys
    requires Resolves(LeafGraph(files, links, a), p, Contents(data))
    ensures Resolves(LeafGraph(files, links, b), p, Contents(data))
  {
    var g, h := LeafGraph(files, links, a), LeafGraph(files, links, b);
    assert g.next.Keys == links.Keys;
    var n: nat :| Lands(g, p, n, Contents(data));
    WalksAlike(g, h, p, n);
    var end := Walk(g, p, n).value;
    assert end in files;
    assert h.base[end] == Contents(files[end]);
    assert Lands(h, p, n, Contents(data));
  }

  lemma BaseLeaf(v: View, known: set<Path>, memo: map<Path, Leaf>, p: Path)
    requires v.files.Keys !! v.links.Keys
    requires MemoSound(LeafGraph(v.files, v.links, known), memo)
    ensures p in v.files ==> p in memo && memo[p] == Contents(v.files[p])
    ensures p in memo && p !in v.files && p !in v.links ==> memo[p] == DirectoryLeaf
  {
    var g := LeafGraph(v.files, v.links, known);
    assert g.next.Keys == v.links.Keys;
    if p in g.base {
      assert Lands(g, p, 0, g.base[p]);
      assert Resolves(g, p, g.base[p]) && Resolves(g, p, memo[p]);
      LandingIsFinal(g, p, g.base[p]);
    }
  }

  lemma LinkLeaf(v: View, known: set<Path>, memo: map<Path, Leaf>, p: Path)
    requires v.files.Keys !! v.links.Keys && p in v.links
    requires MemoSound(LeafGraph(v.files, v.links, known), memo)
    requires MustKeep(LeafGraph(v.files, v.links, known), p, HasContents) ==> p in memo
    ensures ReachesBytes(v, p) <==> p in memo && memo[p].Contents?
    ensures p in memo && memo[p].Contents? ==> Resolves(LeafGraph(v.files, v.links, {}), p, memo[p])
  {
    var g := LeafGraph(v.files, v.links, known);
    if p in memo && memo[p].Contents? {
      assert Resolves(g, p, memo[p]);
      BytesIgnoreDirectories(v.files, v.links, known, {}, p, memo[p].data);
    }
    if ReachesBytes(v, p) {
      var b :| Resolves(LeafGraph(v.files, v.links, {}), p, Contents(b));
      BytesIgnoreDirectories(v.files, v.links, {}, known, p, b);
      LandingIsFinal(g, p, Contents(b));
      assert Resolves(g, p, memo[p]);
    }
  }

  lemma LeavesGiveFiles(v: View, known: set<Path>, memo: map<Path, Leaf>, p: Path)
    requires v.files.Keys !! v.links.Keys
    requires MemoSound(LeafGraph(v.files, v.links, known), memo)
    requires p in v.links && MustKeep(LeafGraph(v.files, v.links, known), p, HasContents) ==> p in memo
    ensures FileAt(v, map q | q in memo && memo[q].Contents? :: memo[q].data, p)
  {
    BaseLeaf(v, known, memo, p);
    if p in v.links {
      LinkLeaf(v, known, memo, p);
    }
  }

  function Collected(v: View, known: set<Path>, memo: map<Path, Leaf>): Snapshot {
    Snapshot(map q | q in memo && memo[q].Contents? :: memo[q].data,
             (map d | d in known :: IMPLIED_DIRECTORY) + v.entries)
  }

  lemma CollectedIsSnapshot(v: View, directories: set<Path>, memo: map<Path, Leaf>)
    requires v.files.Keys !! v.links.Keys && directories <= v.entries.Keys
    requires MemoSound(LeafGraph(v.files, v.links, directories + Ancestors(Stored(v))), memo)
    requires forall p ::
               (p in v.links && MustKeep(LeafGraph(v.files, v.links, directories + Ancestors(Stored(v))), p, HasContents))
               ==> p in memo
    ensures SnapshotOf(v, Collected(v, directories + Ancestors(Stored(v)), memo))
  {
    var known := directories + Ancestors(Stored(v));
    forall p ensures FileAt(v, Collected(v, known, memo).files, p) {
      LeavesGiveFiles(v, known, memo, p);
    }
  }

  /** Every link must end somewhere; the links of `v` read in any order. */
  ghost predicate LinksEnd(v: View, known: set<Path>) {
    forall name :: name in v.links ==> Succeeds(LeafGraph(v.files, v.links, known), name)
  }

  method Finish(v: View, directories: set<Path>) returns (r: Result<Snapshot, Failure>)
    requires v.files.Keys !! v.links.Keys && directories <= v.entries.Keys
    ensures r.Ok? <==> LinksEnd(v, directories + Ancestors(Stored(v)))
    ensures r.Ok? ==> SnapshotOf(v, r.value)
  {
    var known := directories + Ancestors(Stored(v));
    var g := LeafGraph(v.files, v.links, known);
    assert g.next.Keys == v.links.Keys;
    var resolved := ResolveAll(g, HasContents);
    if resolved.Err? {
      return Err(resolved.error);
    }
    CollectedIsSnapshot(v, directories, resolved.value);
    return Ok(Collected(v, known, resolved.value));
  }

  // ---- The whole run ----

  function Layers(blobs: seq<Blob>): (layers: seq<Layer>)
    ensures |layers| == |blobs|
  {
    seq(|blobs|, i requires 0 <= i < |blobs| => Scanned(Roles(blobs[i].members)))
  }

  function Compressed(blobs: seq<Blob>): nat {
    if blobs == [] then 0 else Compressed(blobs[..|blobs| - 1]) + blobs[|blobs| - 1].compressed
  }

  function TotalsOf(blobs: seq<Blob>): Totals {
    if blobs == [] then Totals(0, 0)
    else
      var t, members := TotalsOf(blobs[..|blobs| - 1]), blobs[|blobs| - 1].members;
      Totals(t.members + |members|, t.expanded + Carried(Roles(members)))
  }

  /** Every layer is readable within the bounds that the earlier layers leave. */
  predicate Readable(blobs: seq<Blob>) {
    blobs == [] ||
    var init, blob := blobs[..|blobs| - 1], blobs[|blobs| - 1];
    Readable(init) && Compressed(blobs) <= MAX_OCI_COMPRESSED_BYTES && Accepted(Roles(blob.members), TotalsOf(init))
  }

  ghost predicate Foldable(layers: seq<Layer>) {
    exists v :: FoldsTo(layers, v)
  }

  /** `known` are the directories remembered after the layers, when the directory names of layer `i`
      are visited in the order `orders[i]`. */
  ghost predicate Remembers(layers: seq<Layer>, orders: seq<seq<Path>>, known: set<Path>)
    requires |orders| == |layers|
    decreases |layers|
  {
    if layers == [] then known == {}
    else
      var n := |layers| - 1;
      IsOrder(orders[n], layers[n].directories) &&
      exists u, before {:trigger DirectoriesAfter(u, before, layers[n], orders[n])} ::
        && FoldsTo(layers[..n], u) && Remembers(layers[..n], orders[..n], before)
        && known == DirectoriesAfter(u, before, layers[n], orders[n])
  }

  /** A completed fold: the tables, the orders taken and the directories they leave remembered. */
  datatype Run = Run(view: View, orders: seq<seq<Path>>, known: set<Path>)

  ghost predicate Runs(layers: seq<Layer>, run: Run) {
    && FoldsTo(layers, run.view)
    && |run.orders| == |layers|
    && Remembers(layers, run.orders, run.known)
  }

  const NO_RUN := Run(EMPTY_VIEW, [], {})

  lemma FoldSnoc(layers: seq<Layer>, u: View, layer: Layer, v: View)
    requires FoldsTo(layers, u) && Applies(u, layer, v)
    ensures FoldsTo(layers + [layer], v)
  {
    var longer := layers + [layer];
    assert longer[..|longer| - 1] == layers && longer[|longer| - 1] == layer;
    assert FoldsOnto(layers, layer, v);
  }

  lemma RunSnoc(layers: seq<Layer>, run: Run, layer: Layer, order: seq<Path>, v: View)
    requires Runs(layers, run) && Applies(run.view, layer, v) && IsOrder(order, layer.directories)
    ensures Runs(layers + [layer],
                 Run(v, run.orders + [order], DirectoriesAfter(run.view, run.known, layer, order)))
  {
    var longer, orders := layers + [layer], run.orders + [order];
    assert longer[..|layers|] == layers && orders[..|layers|] == run.orders;
    FoldSnoc(layers, run.view, layer, v);
  }

  lemma LayersSnoc(blobs: seq<Blob>, blob: Blob)
    ensures Layers(blobs + [blob]) == Layers(blobs) + [Scanned(Roles(blob.members))]
  {
  }

  lemma {:induction false} ReadablePrefix(blobs: seq<Blob>, k: nat)
    requires k <= |blobs|
    ensures Readable(blobs) ==> Readable(blobs[..k])
    decreases |blobs|
  {
    if k == |blobs| {
      assert blobs[..k] == blobs;
    } else {
      assert blobs[..|blobs| - 1][..k] == blobs[..k];
      ReadablePrefix(blobs[..|blobs| - 1], k);
    }
  }

  lemma {:induction false} FoldablePrefix(layers: seq<Layer>, k: nat)
    requires k <= |layers|
    ensures Foldable(layers) ==> Foldable(layers[..k])
    decreases |layers|
  {
    if k == |layers| {
      assert layers[..k] == layers;
    } else if Foldable(layers) {
      var init, layer := layers[..|layers| - 1], layers[|layers| - 1];
      var v :| FoldsTo(layers, v);
      assert FoldsOnto(init, layer, v);
      var u :| FoldsTo(init, u) && Applies(u, layer, v);
      assert Foldable(init);
      assert init[..k] == layers[..k];
      FoldablePrefix(init, k);
    }
  }

  lemma FoldableNext(layers: seq<Layer>, u: View, layer: Layer)
    requires FoldsTo(layers, u) && Foldable(layers + [layer])
    ensures Accepts(u, layer)
  {
    var longer := layers + [layer];
    assert longer[..|longer| - 1] == layers && longer[|longer| - 1] == layer;
    var v :| FoldsTo(longer, v);
    assert FoldsOnto(layers, layer, v);
    var w :| FoldsTo(layers, w) && Applies(w, layer, v);
    FoldUnique(layers, u, w);
  }

  lemma {:induction false} ReadableTotals(blobs: seq<Blob>)
    requires Readable(blobs)
    ensures TotalsOk(TotalsOf(blobs))
  {
  }

  /** What has been folded so far. */
  ghost predicate Folded(blobs: seq<Blob>, run: Run) {
    Runs(Layers(blobs), run) && Readable(blobs) && AllCoherent(Layers(blobs))
  }

  lemma CoherentSnoc(layers: seq<Layer>, layer: Layer)
    requires AllCoherent(layers) && Coherent(layer)
    ensures AllCoherent(layers + [layer])
  {
  }

  lemma FoldableSnoc(layers: seq<Layer>, v: View)
    requires FoldsTo(layers, v)
    ensures Foldable(layers)
  {
  }

  lemma FoldedSnoc(done: seq<Blob>, run: Run, blob: Blob, order: seq<Path>, v: View, known: set<Path>)
    requires Folded(done, run) && Readable(done + [blob])
    requires Coherent(Scanned(Roles(blob.members))) && Applies(run.view, Scanned(Roles(blob.members)), v)
    requires IsOrder(order, Scanned(Roles(blob.members)).directories)
    requires known == DirectoriesAfter(run.view, run.known, Scanned(Roles(blob.members)), order)
    ensures Folded(done + [blob], Run(v, run.orders + [order], known))
    ensures Foldable(Layers(done + [blob]))
  {
    LayersSnoc(done, blob);
    RunSnoc(Layers(done), run, Scanned(Roles(blob.members)), order, v);
    CoherentSnoc(Layers(done), Scanned(Roles(blob.members)));
    FoldableSnoc(Layers(done + [blob]), v);
  }

  lemma RefusedSnoc(done: seq<Blob>, run: Run, blob: Blob)
    requires Folded(done, run) && !Accepts(run.view, Scanned(Roles(blob.members)))
    ensures !Foldable(Layers(done + [blob]))
  {
    LayersSnoc(done, blob);
    if Foldable(Layers(done + [blob])) {
      FoldableNext(Layers(done), run.view, Scanned(Roles(blob.members)));
    }
  }

  ghost predicate At(fold: ImageFold, run: Run)
    reads fold
  {
    fold.Valid() && fold.Tables() == run.view && fold.directories == run.known
  }

  lemma ReadableStep(done: seq<Blob>, blob: Blob)
    ensures Readable(done + [blob]) <==>
              && Readable(done) && Compressed(done + [blob]) <= MAX_OCI_COMPRESSED_BYTES
              && Accepted(Roles(blob.members), TotalsOf(done))
  {
    var longer := done + [blob];
    assert longer[..|longer| - 1] == done && longer[|longer| - 1] == blob;
  }

  lemma TotalsStep(done: seq<Blob>, blob: Blob)
    ensures TotalsOf(done + [blob]) ==
            Totals(TotalsOf(done).members + |blob.members|, TotalsOf(done).expanded + Carried(Roles(blob.members)))
  {
    var longer := done + [blob];
    assert longer[..|longer| - 1] == done && longer[|longer| - 1] == blob;
  }

  /** A blob within the bounds that the blobs before it leave. */
  method ReadBlob(ghost done: seq<Blob>, blob: Blob, compressed: nat, before: Totals)
    returns (r: Result<(Layer, Totals), string>)
    requires Readable(done) && before == TotalsOf(done) && compressed == Compressed(done + [blob])
    ensures r.Ok? <==> Readable(done + [blob])
    ensures r.Ok? ==> r.value.0 == Scanned(Roles(blob.members)) && Coherent(r.value.0)
    ensures r.Ok? ==> r.value.1 == TotalsOf(done + [blob])
  {
    ReadableStep(done, blob);
    if compressed > MAX_OCI_COMPRESSED_BYTES {
      return Err("final image layers exceed aggregate compressed bound");
    }
    ReadableTotals(done);
    TotalsStep(done, blob);
    r := ReadLayer(blob.members, before);
  }

  /** One turn of the layer loop; `done` are the layers already folded. */
  method FoldBlob(fold: ImageFold, ghost done: seq<Blob>, ghost run: Run, blob: Blob, compressed: nat, before: Totals)
    returns (r: Result<Totals, string>, ghost next: Run)
    requires At(fold, run) && Folded(done, run)
    requires before == TotalsOf(done) && compressed == Compressed(done + [blob])
    modifies fold
    ensures r.Ok? <==> Readable(done + [blob]) && Foldable(Layers(done + [blob]))
    ensures r.Ok? ==> At(fold, next) && Folded(done + [blob], next) && r.value == TotalsOf(done + [blob])
  {
    next := run;
    var read := ReadBlob(done, blob, compressed, before);
    if read.Err? {
      return Err(read.error), run;
    }
    var applied, order := fold.ApplyLayer(read.value.0);
    if applied.Err? {
      RefusedSnoc(done, run, blob);
      return Err(applied.error), run;
    }
    FoldedSnoc(done, run, blob, order, fold.Tables(), fold.directories);
    next := Run(fold.Tables(), run.orders + [order], fold.directories);
    return Ok(read.value.1), next;
  }

  lemma RefusedPrefix(blobs: seq<Blob>, k: nat)
    requires k <= |blobs| && !(Readable(blobs[..k]) && Foldable(Layers(blobs[..k])))
    ensures !(Readable(blobs) && Foldable(Layers(blobs)))
  {
    ReadablePrefix(blobs, k);
    FoldablePrefix(Layers(blobs), k);
    assert Layers(blobs)[..k] == Layers(blobs[..k]);
  }

  lemma FoldedIsFoldable(blobs: seq<Blob>, run: Run)
    requires Folded(blobs, run)
    ensures Readable(blobs) && Foldable(Layers(blobs))
  {
  }

  lemma CompressedSnoc(blobs: seq<Blob>, i: nat)
    requires i < |blobs|
    ensures blobs[..i + 1] == blobs[..i] + [blobs[i]]
    ensures Compressed(blobs[..i + 1]) == Compressed(blobs[..i]) + blobs[i].compressed
  {
    var longer := blobs[..i + 1];
    assert longer[..|longer| - 1] == blobs[..i];
  }

  /** The layer loop accepts exactly the readable, foldable layer sequences. */
  method FoldBlobs(blobs: seq<Blob>) returns (r: Result<ImageFold, string>, ghost run: Run)
    ensures r.Ok? <==> Readable(blobs) && Foldable(Layers(blobs))
    ensures r.Ok? ==> At(r.value, run) && Folded(blobs, run)
  {
    var fold := new ImageFold();
    var totals, compressed, i := Totals(0, 0), 0, 0;
    run := NO_RUN;
    while i < |blobs|
      invariant 0 <= i <= |blobs| && fresh(fold) && At(fold, run) && Folded(blobs[..i], run)
      invariant totals == TotalsOf(blobs[..i]) && compressed == Compressed(blobs[..i])
    {
      CompressedSnoc(blobs, i);
      compressed := compressed + blobs[i].compressed;
      var step, next := FoldBlob(fold, blobs[..i], run, blobs[i], compressed, totals);
      if step.Err? {
        RefusedPrefix(blobs, i + 1);
        return Err(step.error), run;
      }
      totals, run := step.value, next;
      i := i + 1;
    }
    assert blobs[..|blobs|] == blobs;
    FoldedIsFoldable(blobs, run);
    return Ok(fold), run;
  }

  /** An image is accepted exactly when its layers can be read and folded and its links all end, given
      the directories that the orders taken leave remembered. */
  method TakeSnapshot(blobs: seq<Blob>) returns (r: Result<Snapshot, string>, ghost run: Run)
    ensures Readable(blobs) && Foldable(Layers(blobs)) ==> Runs(Layers(blobs), run)
    ensures r.Ok? <==> Readable(blobs) && Foldable(Layers(blobs)) &&
                       LinksEnd(run.view, run.known + Ancestors(Stored(run.view)))
    ensures r.Ok? ==> SnapshotOf(run.view, r.value) && AllCoherent(Layers(blobs))
  {
    var folded, taken := FoldBlobs(blobs);
    run := taken;
    if folded.Err? {
      return Err(folded.error), run;
    }
    var fold := folded.value;
    var v := View(fold.filesystem, fold.links, fold.entriesByPath);
    ViewsApart(v);
    var done := Finish(v, fold.directories);
    if done.Err? {
      return Err("final image contains a cyclic or dangling link"), run;
    }
    return Ok(done.value), run;
  }

  lemma ViewsApart(v: View)
    requires Agree(v)
    ensures v.files.Keys !! v.links.Keys
  {
    assert forall p :: p in v.files ==> AgreeAt(v, p);
  }

  // ---- What a snapshot says ----

  /** The returned files and entries agree: a file or hardlink entry carries the returned bytes, a
      symlink entry is returned exactly when its chain ends in bytes, a directory never is. */
  lemma SnapshotAgrees(layers: seq<Layer>, v: View, s: Snapshot, p: Path)
    requires FoldsTo(layers, v) && AllCoherent(layers) && SnapshotOf(v, s)
    ensures p in s.files ==> p in s.entries
    ensures p in s.entries && s.entries[p].kind == Directory ==> p !in s.files
    ensures p in s.entries && (s.entries[p].kind == File || s.entries[p].kind == Hardlink) ==>
              p in s.files && s.entries[p].data == Some(s.files[p])
    ensures p in s.entries && s.entries[p].kind == Symlink ==> (p in s.files <==> ReachesBytes(v, p))
  {
    FoldAgrees(layers, v);
    assert AgreeAt(v, p) && FileAt(v, s.files, p);
  }

  /** The snapshot of an image, path by path, from the layers alone: a visible regular file is
      returned with the bytes of the newest layer that records it. */
  lemma SnapshotShowsNewest(layers: seq<Layer>, v: View, s: Snapshot, i: int, p: Path)
    requires FoldsTo(layers, v) && AllCoherent(layers) && SnapshotOf(v, s)
    requires Visible(layers, i, p)
    ensures p in s.entries && RecordedAs(layers, i, p, s.entries[p])
    ensures p in layers[i].files ==> p in s.files && s.files[p] == layers[i].files[p]
  {
    NewestLayerDecides(layers, v);
    assert ExplainsAt(layers, v, p) && FileAt(v, s.files, p);
    StoredBytes(layers, v, i, p);
  }

  /** Accepted snapshots of one image are equal, whatever orders were taken inside. */
  lemma SnapshotUnique(layers: seq<Layer>, v: View, w: View, a: Snapshot, b: Snapshot)
    requires AllCoherent(layers) && FoldsTo(layers, v) && FoldsTo(layers, w)
    requires SnapshotOf(v, a) && SnapshotOf(w, b)
    ensures a == b
  {
    FoldUnique(layers, v, w);
    forall p
      ensures p in a.files <==> p in b.files
      ensures p in a.files ==> a.files[p] == b.files[p]
    {
      FilesUnique(v, a.files, b.files, p);
    }
    assert a.files == b.files;
  }

  lemma FilesUnique(v: View, a: map<Path, Bytes>, b: map<Path, Bytes>, p: Path)
    requires FileAt(v, a, p) && FileAt(v, b, p)
    ensures p in a <==> p in b
    ensures p in a ==> a[p] == b[p]
  {
    if p in a && p !in v.files {
      LandingIsFinal(LeafGraph(v.files, v.links, {}), p, Contents(a[p]));
    }
  }
}

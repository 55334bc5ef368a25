/**
  The extraction of pulled layers (`graph/pull_v2.go`, `register` in `graph/graph.go`): what each
  step, also one that fails, may do to the graph, and what the loop keeps from step to step.
 */
module Extraction {
  import opened Options
  import opened ImageConfig
  import opened ImageGraph
  import opened PullSpec
  import opened PullGraph

  /** Where the outside world makes the work on one layer fail. */
  datatype Fault = NoFault | DownloadFails | RegisterFails | DigestFails | ConfigFails

  /** The entry that registering a descriptor adds, before its digest and v1 file are written. */
  function Registered(lib: Library, d: Descriptor): Entry {
    Entry(StoredParent(lib, d), None, None)
  }

  function Base(imgs: seq<Descriptor>): Descriptor
    requires imgs != []
  {
    imgs[|imgs| - 1]
  }

  function IDs(imgs: seq<Descriptor>): set<ID> {
    set i | 0 <= i < |imgs| :: imgs[i].id
  }

  // ---------- what the loop keeps ----------

  /** The base is present already, or names no parent of its own. */
  ghost predicate Sits(lib: Library, g0: Graph, imgs: seq<Descriptor>)
    requires imgs != []
  {
    Base(imgs).id in g0 || StoredParent(lib, Base(imgs)) == ""
  }

  /** New images have their parents beside them, but for a base, which has the parent it names. */
  ghost predicate NewLinked(lib: Library, g0: Graph, g: Graph, imgs: seq<Descriptor>)
    requires imgs != []
  {
    forall id :: id in g && id !in g0 ==>
      if id == Base(imgs).id then g[id].parent == StoredParent(lib, Base(imgs)) else g[id].parent in g
  }

  /** The base was not added, or the parent that it names is there. */
  ghost predicate BaseParentThere(lib: Library, g0: Graph, g: Graph, imgs: seq<Descriptor>)
    requires imgs != []
  {
    var p := StoredParent(lib, Base(imgs));
    Base(imgs).id in g0 || Base(imgs).id !in g || p == "" || p in g
  }

  /**
    The graph only grows, by layers of the image; a closed graph is still closed exactly when a
    base that was added has the parent it names; and with a base that sits, walks still end.
   */
  ghost predicate Grown(lib: Library, g0: Graph, g: Graph, imgs: seq<Descriptor>)
    requires imgs != []
  {
    && Extends(g0, g)
    && (forall id :: id in g ==> id in g0 || id in IDs(imgs))
    && NewLinked(lib, g0, g, imgs)
    && (Closed(g0) ==> (Closed(g) <==> BaseParentThere(lib, g0, g, imgs)))
    && (Rooted(g0) && Sits(lib, g0, imgs) ==> Rooted(g))
  }

  lemma LinkedClosedIff(lib: Library, g0: Graph, g: Graph, imgs: seq<Descriptor>)
    requires imgs != [] && Extends(g0, g) && NewLinked(lib, g0, g, imgs) && Closed(g0) && "" !in g
    ensures Closed(g) <==> BaseParentThere(lib, g0, g, imgs)
  {
  }

  /** The layers from position `k` on are present and, on a base that sits, linked up and valid. */
  ghost predicate Progress(lib: Library, g0: Graph, g: Graph, imgs: seq<Descriptor>, k: nat)
    requires imgs != [] && k <= |imgs|
  {
    && Grown(lib, g0, g, imgs)
    && (forall j :: k <= j < |imgs| ==> imgs[j].id in g)
    && (k == |imgs| ==> g == g0)
    && (Sits(lib, g0, imgs) ==> ChainFrom(lib, g, imgs, k))
  }

  /** The layers before position `k` are in the one graph just when they are in the other. */
  ghost predicate Untouched(g0: Graph, g: Graph, imgs: seq<Descriptor>, k: nat)
    requires k <= |imgs|
  {
    forall j :: 0 <= j < k ==> (imgs[j].id in g <==> imgs[j].id in g0)
  }

  // ---------- one step ----------

  /** What the extraction of position `i` may do to the graph, even when it fails. */
  ghost predicate Extracted(lib: Library, g: Graph, g': Graph, imgs: seq<Descriptor>, i: nat)
    requires i < |imgs|
  {
    var id := imgs[i].id;
    && (forall x :: x in g && x != id ==> x in g' && g'[x] == g[x])
    && (forall x :: x in g' && x != id ==> x in g)
    && (id in g ==> id in g' && g'[id].parent == g[id].parent)
    && (id !in g && id in g' ==> g'[id].parent == StoredParent(lib, imgs[i]))
  }

  /** What it has done when it succeeds. */
  ghost predicate Completed(lib: Library, g: Graph, g': Graph, imgs: seq<Descriptor>, i: nat, layer: string)
    requires i < |imgs|
  {
    var id := imgs[i].id;
    && (id in g ==> ValidatesAt(lib, g, id, imgs, i))
    && id in g'
    && g'[id] == Entry(if id in g then g[id].parent else StoredParent(lib, imgs[i]), Some(layer), Some(imgs[i].v1))
  }

  lemma ExtractRooted(lib: Library, g: Graph, g': Graph, imgs: seq<Descriptor>, i: nat)
    requires i < |imgs| && Extracted(lib, g, g', imgs, i) && imgs[i].id != "" && Rooted(g)
    requires var q := StoredParent(lib, imgs[i]); q == "" || q in g
    ensures Rooted(g')
  {
    var id := imgs[i].id;
    if id in g' {
      assert g' == g[id := g'[id]];
      if id in g {
        UpdateRooted(g, id, g'[id]);
      } else {
        RegisterRooted(g, id, g'[id]);
      }
    } else {
      assert g' == g;
    }
  }

  lemma ExtractLinked(lib: Library, g0: Graph, g: Graph, g': Graph, imgs: seq<Descriptor>, i: nat)
    requires i < |imgs| && LinksUp(lib, imgs) && imgs[i].id !in g0
    requires Progress(lib, g0, g, imgs, i + 1) && Extracted(lib, g, g', imgs, i)
    ensures NewLinked(lib, g0, g', imgs) && Extends(g0, g') && ("" !in g0 ==> "" !in g')
    ensures forall id :: id in g' ==> id in g0 || id in IDs(imgs)
  {
    if i + 1 < |imgs| {
      assert LinksUpAt(lib, imgs, i);
    }
    assert imgs[i].id in IDs(imgs) && "" !in IDs(imgs);
  }

  lemma ExtractStaysRooted(lib: Library, g0: Graph, g: Graph, g': Graph, imgs: seq<Descriptor>, i: nat)
    requires i < |imgs| && LinksUp(lib, imgs) && imgs[i].id !in g0
    requires Progress(lib, g0, g, imgs, i + 1) && Extracted(lib, g, g', imgs, i)
    requires Rooted(g0) && Sits(lib, g0, imgs)
    ensures Rooted(g')
  {
    if i + 1 < |imgs| {
      assert LinksUpAt(lib, imgs, i);
    }
    ExtractRooted(lib, g, g', imgs, i);
  }

  lemma ExtractGrows(lib: Library, g0: Graph, g: Graph, g': Graph, imgs: seq<Descriptor>, i: nat)
    requires i < |imgs| && LinksUp(lib, imgs) && imgs[i].id !in g0
    requires Progress(lib, g0, g, imgs, i + 1) && Extracted(lib, g, g', imgs, i)
    ensures Grown(lib, g0, g', imgs)
  {
    ExtractLinked(lib, g0, g, g', imgs, i);
    if Closed(g0) {
      LinkedClosedIff(lib, g0, g', imgs);
    }
    if Rooted(g0) && Sits(lib, g0, imgs) {
      ExtractStaysRooted(lib, g0, g, g', imgs, i);
    }
  }

  lemma ExtractProgress(lib: Library, g0: Graph, g: Graph, g': Graph, layers: seq<string>, history: seq<string>,
                        imgs: seq<Descriptor>, i: nat)
    requires i < |imgs| && LinksUp(lib, imgs) && Hashed(lib, layers, history, imgs) && imgs[i].id !in g0
    requires Progress(lib, g0, g, imgs, i + 1) && Grown(lib, g0, g', imgs)
    requires Extracted(lib, g, g', imgs, i) && Completed(lib, g, g', imgs, i, layers[i])
    ensures Progress(lib, g0, g', imgs, i)
  {
    if Sits(lib, g0, imgs) {
      StepChain(lib, g, g', layers, history, imgs, i);
    }
  }

  lemma SkipProgress(lib: Library, g0: Graph, g: Graph, imgs: seq<Descriptor>, i: nat)
    requires i < |imgs| && imgs[i].id in g0 && FreeOrValid(lib, g0, imgs)
    requires Progress(lib, g0, g, imgs, i + 1)
    ensures Progress(lib, g0, g, imgs, i)
  {
    assert FreeOrValidAt(lib, g0, imgs, i);
    assert InPlace(lib, g0, imgs, i);
    ValidatesFrame(lib, g0, g, imgs, i);
  }

  /** A layer extracted under a free ID extends the chain; under the ID of a layer below it never validates. */
  lemma StepChain(lib: Library, g: Graph, g': Graph, layers: seq<string>, history: seq<string>, imgs: seq<Descriptor>, i: nat)
    requires i < |imgs| && LinksUp(lib, imgs) && Hashed(lib, layers, history, imgs)
    requires (i + 1 == |imgs| ==> StoredParent(lib, imgs[i]) == "") && ChainFrom(lib, g, imgs, i + 1)
    requires Extracted(lib, g, g', imgs, i) && Completed(lib, g, g', imgs, i, layers[i])
    ensures ChainFrom(lib, g', imgs, i)
  {
    assert StoredParent(lib, imgs[i]) == ParentID(imgs, i) by {
      if i + 1 < |imgs| {
        assert LinksUpAt(lib, imgs, i);
      }
    }
    RegisteredValidates(lib, g', layers, history, imgs, i);
    forall j | i < j < |imgs| ensures InPlace(lib, g', imgs, j) {
      assert InPlace(lib, g, imgs, j);
      if imgs[j].id == imgs[i].id {
        assert InPlace(lib, g, imgs, i);
        ChainDistinct(lib, g, imgs, i, j);
      }
      ValidatesFrame(lib, g, g', imgs, j);
    }
  }

  // ---------- results ----------

  /**
    The condition of `Grown` in terms of what is known before the pull: a pull that goes through
    leaves a closed graph exactly when the base was there before, or names no parent, or names one
    that was there before or is one of the layers.
   */
  lemma PullClosedIff(lib: Library, g0: Graph, g: Graph, imgs: seq<Descriptor>)
    requires imgs != [] && Progress(lib, g0, g, imgs, 0) && Closed(g0)
    ensures var p := StoredParent(lib, Base(imgs));
            Closed(g) <==> Base(imgs).id in g0 || p == "" || p in g0 || p in IDs(imgs)
  {
    assert Base(imgs).id in g;
  }

  /** The tag of a pulled image names its top layer, and that layer's lineage is the manifest's chain. */
  lemma PulledLineage(lib: Library, g0: Graph, g: Graph, imgs: seq<Descriptor>)
    requires imgs != [] && LinksUp(lib, imgs) && Progress(lib, g0, g, imgs, 0)
    requires Sits(lib, g0, imgs) && Rooted(g0)
    ensures Rooted(g) && imgs[0].id in g
    ensures Lineage(g, imgs[0].id) == seq(|imgs|, i requires 0 <= i < |imgs| => imgs[i].id)
  {
    var c := seq(|imgs|, i requires 0 <= i < |imgs| => imgs[i].id);
    ChainIsLineage(lib, g, imgs, 0);
    assert c[0..] == c;
    LineageUnique(g, imgs[0].id, Lineage(g, imgs[0].id), c);
  }

  lemma {:induction false} ChainIsLineage(lib: Library, g: Graph, imgs: seq<Descriptor>, k: nat)
    requires k < |imgs| && ChainFrom(lib, g, imgs, k) && "" !in g
    ensures IsLineage(g, imgs[k].id, seq(|imgs|, i requires 0 <= i < |imgs| => imgs[i].id)[k..])
    decreases |imgs| - k
  {
    var c := seq(|imgs|, i requires 0 <= i < |imgs| => imgs[i].id);
    assert InPlace(lib, g, imgs, k);
    if k + 1 < |imgs| {
      assert InPlace(lib, g, imgs, k + 1);
      ChainIsLineage(lib, g, imgs, k + 1);
      assert c[k..][1..] == c[k + 1..];
    }
  }
}

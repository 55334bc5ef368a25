/**
  What the chosen IDs mean in a graph (`graph/pull_v2.go`, `graph/graph_unix.go`): which layers are
  present, which parents a registration stores, and when a chain of layers is in place.
 */
module PullGraph {
  import opened Options
  import opened ImageConfig
  import opened ImageGraph
  import opened PullSpec

  /**
    The parent that the graph gives a registered image: the one written beside the configuration,
    else the configuration's own `parent_id`.
   */
  function StoredParent(lib: Library, d: Descriptor): ID {
    if "parent_id" in d.config && lib.validDigest(d.config["parent_id"])
    then (if d.parent != "" then d.parent else d.config["parent_id"])
    else ""
  }

  /** Registering each descriptor will link it to the ID chosen for the one below. */
  ghost predicate LinksUp(lib: Library, imgs: seq<Descriptor>) {
    && (forall i :: 0 <= i < |imgs| ==> imgs[i].id != "")
    && (forall i :: 0 <= i < |imgs| - 1 ==> LinksUpAt(lib, imgs, i))
  }

  predicate LinksUpAt(lib: Library, imgs: seq<Descriptor>, i: nat)
    requires i < |imgs|
  {
    StoredParent(lib, imgs[i]) == ParentID(imgs, i)
  }

  // ---------- the layers already present ----------

  lemma {:induction false} ChosenNotEmpty(lib: Library, g: Graph, imgs: seq<Descriptor>)
    requires Spreads(lib, g, imgs) && Sound(lib) && "" !in g
    requires forall i :: 0 <= i < |imgs| ==> imgs[i].id != ""
    ensures forall i :: 0 <= i < |imgs| ==> Choose(lib, g, imgs).imgs[i].id != ""
  {
    if imgs != [] {
      ChosenNotEmpty(lib, g, imgs[1..]);
      var below := Choose(lib, g, imgs[1..]);
      TopNotEmpty(lib, g, imgs[0], below);
      assert Choose(lib, g, imgs).imgs == [ChooseTop(lib, g, imgs[0], below).imgs[0]] + below.imgs;
    }
  }

  lemma TopNotEmpty(lib: Library, g: Graph, d: Descriptor, below: Choice)
    requires SpreadsAt(lib, g, d.id) && Sound(lib) && "" !in g && d.id != ""
    ensures ChooseTop(lib, g, d, below).imgs[0].id != ""
  {
  }

  /** What validation says about a present layer, in terms of the manifest. */
  lemma PresentLayer(lib: Library, g: Graph, layers: seq<string>, history: seq<string>, imgs: seq<Descriptor>, i: nat)
    requires Injective(lib) && Hashed(lib, layers, history, imgs) && i < |imgs|
    requires imgs[i].id in g && FreeOrValidAt(lib, g, imgs, i)
    ensures g[imgs[i].id].parent == ParentID(imgs, i)
    ensures g[imgs[i].id].layer == Some(layers[i])
    ensures g[imgs[i].id].v1.Some? && Core(lib, g[imgs[i].id].v1.value) == Core(lib, history[i])
  {
    assert Level(lib, layers, history, imgs, i);
    var e, p := g[imgs[i].id], StrongParent(imgs, i);
    ConfigDetermines(lib, e.v1.value, e.layer.value, p, history[i], layers[i], p);
  }

  /**
    In a closed graph the layers already present are a base-side suffix of the manifest: below a
    present layer every layer is present, linked to the next, with the manifest's digest.
   */
  lemma {:induction false} PresentSuffix(lib: Library, g: Graph, layers: seq<string>, history: seq<string>,
                                         imgs: seq<Descriptor>, i: nat, k: nat)
    requires Injective(lib) && Hashed(lib, layers, history, imgs) && Closed(g) && FreeOrValid(lib, g, imgs)
    requires forall j :: 0 <= j < |imgs| ==> imgs[j].id != ""
    requires i <= k < |imgs| && imgs[i].id in g
    ensures imgs[k].id in g
    ensures g[imgs[k].id].parent == ParentID(imgs, k)
    ensures g[imgs[k].id].layer == Some(layers[k])
    ensures g[imgs[k].id].v1.Some? && Core(lib, g[imgs[k].id].v1.value) == Core(lib, history[k])
    decreases k - i
  {
    assert FreeOrValidAt(lib, g, imgs, i);
    PresentLayer(lib, g, layers, history, imgs, i);
    if i < k {
      PresentSuffix(lib, g, layers, history, imgs, i + 1, k);
    }
  }

  // ---------- links ----------

  lemma IDsKeepHashes(lib: Library, layers: seq<string>, history: seq<string>, imgs: seq<Descriptor>, imgs': seq<Descriptor>)
    requires Hashed(lib, layers, history, imgs) && SameButIDs(imgs, imgs')
    ensures Hashed(lib, layers, history, imgs')
  {
    forall i | 0 <= i < |imgs'| ensures Level(lib, layers, history, imgs', i) {
      assert Level(lib, layers, history, imgs, i);
      assert imgs[i].(id := imgs'[i].id, parent := imgs'[i].parent) == imgs'[i];
      if i + 1 < |imgs| {
        assert imgs[i + 1].(id := imgs'[i + 1].id, parent := imgs'[i + 1].parent) == imgs'[i + 1];
      }
    }
  }

  lemma ConfigParent(lib: Library, layers: seq<string>, history: seq<string>, imgs: seq<Descriptor>, i: nat)
    requires Sound(lib) && Hashed(lib, layers, history, imgs) && i + 1 < |imgs|
    ensures "parent_id" in imgs[i].config && imgs[i].config["parent_id"] == imgs[i + 1].strongID
    ensures lib.validDigest(imgs[i + 1].strongID)
  {
    assert Level(lib, layers, history, imgs, i);
    StrongIDNotEmpty(lib, layers, history, imgs, i + 1);
  }

  /** Both ways out of `attemptIDReuse` leave descriptors whose registration links up. */
  lemma InfosLinked(lib: Library, layers: seq<string>, history: seq<string>, imgs: seq<Descriptor>)
    requires Sound(lib) && Hashed(lib, layers, history, imgs)
    requires AllStrong(imgs)
    ensures LinksUp(lib, imgs)
  {
    forall i | 0 <= i < |imgs| ensures imgs[i].id != "" {
      StrongIDNotEmpty(lib, layers, history, imgs, i);
    }
    forall i | 0 <= i < |imgs| - 1 ensures LinksUpAt(lib, imgs, i) {
      ConfigParent(lib, layers, history, imgs, i);
      assert imgs[i] in imgs && imgs[i + 1] in imgs;
    }
  }

  lemma WithParentsLinked(lib: Library, layers: seq<string>, history: seq<string>, imgs: seq<Descriptor>)
    requires Sound(lib) && Hashed(lib, layers, history, imgs)
    requires forall i :: 0 <= i < |imgs| ==> imgs[i].id != ""
    ensures LinksUp(lib, WithParents(imgs)) && Hashed(lib, layers, history, WithParents(imgs))
    ensures forall i :: 0 <= i < |imgs| ==> ParentID(WithParents(imgs), i) == ParentID(imgs, i)
  {
    var w := WithParents(imgs);
    forall i | 0 <= i < |imgs| ensures w[i].id == imgs[i].id != "" {}
    forall i | 0 <= i < |imgs| ensures imgs[i].(id := w[i].id, parent := w[i].parent) == w[i] {}
    IDsKeepHashes(lib, layers, history, imgs, w);
    forall i | 0 <= i < |imgs| - 1 ensures LinksUpAt(lib, w, i) {
      ConfigParent(lib, layers, history, imgs, i);
    }
  }

  lemma WithParentsFreeOrValid(lib: Library, g: Graph, imgs: seq<Descriptor>)
    requires FreeOrValid(lib, g, imgs)
    ensures FreeOrValid(lib, g, WithParents(imgs))
  {
    var w := WithParents(imgs);
    forall i | 0 <= i < |imgs| ensures FreeOrValidAt(lib, g, w, i) {
      assert FreeOrValidAt(lib, g, imgs, i);
      assert w[i].strongID == imgs[i].strongID;
      if i + 1 < |imgs| {
        assert w[i + 1].strongID == imgs[i + 1].strongID && w[i + 1].id == imgs[i + 1].id;
      }
    }
  }

  // ---------- registration ----------

  /** Registering under a free ID keeps a graph closed exactly when the stored parent is there. */
  lemma RegisterClosedIff(g: Graph, id: ID, e: Entry)
    requires Closed(g) && id != "" && id !in g
    ensures Closed(g[id := e]) <==> e.parent == "" || e.parent in g || e.parent == id
  {
    var g' := g[id := e];
    if Closed(g') {
      assert g'[id].parent == "" || g'[id].parent in g';
    }
  }

  lemma ValidatesFrame(lib: Library, g: Graph, g': Graph, imgs: seq<Descriptor>, k: nat)
    requires k < |imgs| && InPlace(lib, g, imgs, k)
    requires imgs[k].id in g' && g'[imgs[k].id] == g[imgs[k].id]
    ensures InPlace(lib, g', imgs, k)
  {
  }

  /** The entry of a fully registered layer validates. */
  lemma RegisteredValidates(lib: Library, g: Graph, layers: seq<string>, history: seq<string>, imgs: seq<Descriptor>, i: nat)
    requires Hashed(lib, layers, history, imgs) && i < |imgs|
    requires imgs[i].id in g && g[imgs[i].id] == Entry(ParentID(imgs, i), Some(layers[i]), Some(imgs[i].v1))
    ensures InPlace(lib, g, imgs, i)
  {
    assert Level(lib, layers, history, imgs, i);
  }

  /** The layers from position `k` on are all in the graph, each linked to the next, and validate. */
  ghost predicate ChainFrom(lib: Library, g: Graph, imgs: seq<Descriptor>, k: nat)
    requires k <= |imgs|
  {
    forall j :: k <= j < |imgs| ==> InPlace(lib, g, imgs, j)
  }

  predicate InPlace(lib: Library, g: Graph, imgs: seq<Descriptor>, j: nat)
    requires j < |imgs|
  {
    ValidatesAt(lib, g, imgs[j].id, imgs, j)
  }

  /** Two positions of a chain never share an ID, since their chains have different lengths. */
  lemma {:induction false} ChainDistinct(lib: Library, g: Graph, imgs: seq<Descriptor>, i: nat, j: nat)
    requires i < j < |imgs| && ChainFrom(lib, g, imgs, i)
    requires forall t :: 0 <= t < |imgs| ==> imgs[t].id != ""
    ensures imgs[i].id != imgs[j].id
    decreases |imgs| - j
  {
    assert InPlace(lib, g, imgs, i) && InPlace(lib, g, imgs, j);
    if imgs[i].id == imgs[j].id && j + 1 < |imgs| {
      ChainDistinct(lib, g, imgs, i + 1, j + 1);
    }
  }
}

/**
  The image graph (`graph/graph.go`, `graph/history.go`): a map from ID to image, in which every
  image names its parent. Storage, drivers and ID abbreviations are abstracted away.
 */
module ImageGraph {
  import opened Options
  import opened ImageConfig

  /** An image in the graph; a base image has the empty parent. */
  datatype Entry = Entry(parent: ID, layer: Option<string>, v1: Option<string>)

  type Graph = map<ID, Entry>

  /** Every parent is present. */
  ghost predicate Closed(g: Graph) {
    "" !in g && forall id :: id in g ==> g[id].parent == "" || g[id].parent in g
  }

  ghost predicate Extends(g: Graph, g': Graph) {
    forall id :: id in g ==> id in g' && g'[id] == g[id]
  }

  // ---------- lineages ----------

  /** `c` is the image `id`, its parent, and so on as far as the parents are in the graph. */
  ghost predicate IsLineage(g: Graph, id: ID, c: seq<ID>)
    decreases |c|
  {
    && c != [] && c[0] == id && id in g
    && if |c| == 1 then g[id].parent !in g else g[id].parent in g && IsLineage(g, g[id].parent, c[1..])
  }

  /** Every walk along the parents ends, at a base image or at a parent that is missing. */
  ghost predicate Acyclic(g: Graph) {
    "" !in g && forall id :: id in g ==> HasLineage(g, id)
  }

  ghost predicate HasLineage(g: Graph, id: ID) {
    exists c :: IsLineage(g, id, c)
  }

  /** Every walk along the parents ends at a base image. */
  ghost predicate Rooted(g: Graph) {
    Closed(g) && Acyclic(g)
  }

  /** There is only one lineage. */
  lemma {:induction false} LineageUnique(g: Graph, id: ID, c: seq<ID>, d: seq<ID>)
    requires IsLineage(g, id, c) && IsLineage(g, id, d)
    ensures c == d
    decreases |c|
  {
    if |c| > 1 {
      LineageUnique(g, g[id].parent, c[1..], d[1..]);
      assert c == [id] + c[1..] && d == [id] + d[1..];
    }
  }

  ghost function Lineage(g: Graph, id: ID): (c: seq<ID>)
    requires Acyclic(g) && id in g
    ensures IsLineage(g, id, c)
  {
    assert HasLineage(g, id);
    var c :| IsLineage(g, id, c);
    c
  }

  /** Ancestors of `id`, itself included; none for an ID that is not in the graph. */
  ghost function Ancestors(g: Graph, id: ID): set<ID>
    requires Acyclic(g)
  {
    if id in g then set x | x in Lineage(g, id) else {}
  }

  /** The parent at which the walk from `id` stops: none at a base image, else one that is missing. */
  ghost function LastParent(g: Graph, id: ID): ID
    requires Acyclic(g) && id in g
  {
    var c := Lineage(g, id);
    LineageInGraph(g, id, c);
    g[c[|c| - 1]].parent
  }

  lemma LineageStep(g: Graph, id: ID)
    requires Acyclic(g) && id in g
    ensures g[id].parent !in g ==> Lineage(g, id) == [id] && LastParent(g, id) == g[id].parent
    ensures g[id].parent in g ==>
              Lineage(g, id) == [id] + Lineage(g, g[id].parent) && LastParent(g, id) == LastParent(g, g[id].parent)
  {
    var c := Lineage(g, id);
    assert c == [id] + c[1..];
    if g[id].parent in g {
      assert IsLineage(g, g[id].parent, c[1..]);
      LineageUnique(g, g[id].parent, c[1..], Lineage(g, g[id].parent));
    }
  }

  /** In a closed graph the walk stops at a base image only. */
  lemma {:induction false} RootedEndsAtBase(g: Graph, id: ID, c: seq<ID>)
    requires Closed(g) && IsLineage(g, id, c)
    ensures c[|c| - 1] in g && g[c[|c| - 1]].parent == ""
    decreases |c|
  {
    if |c| > 1 {
      RootedEndsAtBase(g, g[id].parent, c[1..]);
    }
  }

  /** A lineage reads off the parents, and each of its suffixes is a lineage. */
  lemma {:induction false} LineageSuffix(g: Graph, id: ID, c: seq<ID>, k: nat)
    requires IsLineage(g, id, c) && k < |c|
    ensures IsLineage(g, c[k], c[k..])
    decreases k
  {
    if k == 0 {
      assert c[0..] == c;
    } else {
      LineageSuffix(g, g[id].parent, c[1..], k - 1);
      assert c[1..][k - 1..] == c[k..];
    }
  }

  /** No image is its own ancestor. */
  lemma LineageDistinct(g: Graph, id: ID, c: seq<ID>, i: nat, j: nat)
    requires IsLineage(g, id, c) && i < j < |c|
    ensures c[i] != c[j]
  {
    LineageSuffix(g, id, c, i);
    LineageSuffix(g, id, c, j);
    if c[i] == c[j] {
      LineageUnique(g, c[i], c[i..], c[j..]);
    }
  }

  /** A lineage stays one while its images keep their parents. */
  lemma {:induction false} LineageFrame(g: Graph, g': Graph, id: ID, c: seq<ID>)
    requires IsLineage(g, id, c)
    requires forall x :: x in c ==> x in g' && (x in g ==> g'[x].parent == g[x].parent)
    requires g'[c[|c| - 1]].parent !in g'
    ensures IsLineage(g', id, c)
    decreases |c|
  {
    assert c[0] in c;
    if |c| > 1 {
      forall x | x in c[1..] ensures x in c {}
      LineageFrame(g, g', g[id].parent, c[1..]);
    }
  }

  lemma {:induction false} LineageInGraph(g: Graph, id: ID, c: seq<ID>)
    requires IsLineage(g, id, c)
    ensures forall x :: x in c ==> x in g
    decreases |c|
  {
    if |c| > 1 {
      LineageInGraph(g, g[id].parent, c[1..]);
      assert c == [id] + c[1..];
    }
  }

  // ---------- growing and shrinking ----------

  /** Registering an image under a free ID on a present parent. */
  lemma RegisterRooted(g: Graph, id: ID, e: Entry)
    requires Rooted(g) && id != "" && id !in g && (e.parent == "" || e.parent in g)
    ensures Rooted(g[id := e])
  {
    var g' := g[id := e];
    forall x | x in g' ensures HasLineage(g', x) {
      var start := if x == id then e.parent else x;
      if start == "" {
        assert IsLineage(g', x, [x]);
      } else {
        var c := Lineage(g, start);
        LineageInGraph(g, start, c);
        RootedEndsAtBase(g, start, c);
        LineageFrame(g, g', start, c);
        if x == id {
          assert ([id] + c)[1..] == c;
          assert IsLineage(g', x, [id] + c);
        }
      }
    }
  }

  /** Changing an entry but for its parent. */
  lemma UpdateRooted(g: Graph, id: ID, e: Entry)
    requires Rooted(g) && id in g && e.parent == g[id].parent
    ensures Rooted(g[id := e])
  {
    var g' := g[id := e];
    forall x | x in g' ensures HasLineage(g', x) {
      var c := Lineage(g, x);
      LineageInGraph(g, x, c);
      RootedEndsAtBase(g, x, c);
      LineageFrame(g, g', x, c);
    }
  }

  ghost predicate IsLeaf(g: Graph, id: ID) {
    forall x :: x in g ==> g[x].parent != id
  }

  /** An image without children is in no lineage but its own. */
  lemma {:induction false} LeafOnlyFirst(g: Graph, leaf: ID, id: ID, c: seq<ID>)
    requires IsLineage(g, id, c) && IsLeaf(g, leaf) && id != leaf
    ensures leaf !in c
    decreases |c|
  {
    if |c| > 1 {
      LeafOnlyFirst(g, leaf, g[id].parent, c[1..]);
      assert c == [id] + c[1..];
    }
  }

  lemma RemoveLeaf(g: Graph, leaf: ID)
    requires Acyclic(g) && IsLeaf(g, leaf)
    ensures Acyclic(g - {leaf}) && (Closed(g) ==> Closed(g - {leaf}))
    ensures forall id :: id in g && id != leaf ==>
              Lineage(g - {leaf}, id) == Lineage(g, id) && LastParent(g - {leaf}, id) == LastParent(g, id)
  {
    var g' := g - {leaf};
    forall id | id in g' ensures IsLineage(g', id, Lineage(g, id)) {
      var c := Lineage(g, id);
      LeafOnlyFirst(g, leaf, id, c);
      LineageInGraph(g, id, c);
      LineageSuffix(g, id, c, |c| - 1);
      LineageFrame(g, g', id, c);
    }
    forall id | id in g' ensures HasLineage(g', id) {
      assert IsLineage(g', id, Lineage(g, id));
    }
    forall id | id in g' ensures Lineage(g', id) == Lineage(g, id) {
      LineageUnique(g', id, Lineage(g', id), Lineage(g, id));
    }
    forall id | id in g' ensures LastParent(g', id) == LastParent(g, id) {
      LineageInGraph(g', id, Lineage(g', id));
    }
  }
}

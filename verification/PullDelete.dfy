/**
  A deletion in the middle of a pull. The layers of a pull are held, so a deletion without force
  leaves them alone, and the pull can go on as if the deleted images had never been there.
 */
module PullDelete {
  import opened ImageConfig
  import opened ImageGraph
  import opened PullSpec
  import opened PullGraph
  import opened Extraction
  import opened DeleteSpec

  /** A deletion without force removes no layer that is held. */
  lemma HeldLayersStay(s: State, name: Name, noprune: bool, imgs: seq<Descriptor>)
    requires Acyclic(s.graph) && IDs(imgs) <= s.retained
    ensures forall x :: x in Delete(s, name, true, false, noprune).deleted ==> x !in IDs(imgs)
  {
    var d := Delete(s, name, true, false, noprune).deleted;
    forall x | x in d ensures x !in IDs(imgs) {
      var k :| 0 <= k < |d| && d[k] == x;
      DeletesNothingBusy(s, name, true, noprune, k);
    }
  }

  lemma WithoutLinked(lib: Library, g0: Graph, g: Graph, imgs: seq<Descriptor>, d: seq<ID>)
    requires imgs != [] && Grown(lib, g0, g, imgs) && (forall x :: x in d ==> x !in IDs(imgs))
    requires KeepsParents(g, Without(g, d))
    ensures var g0', g' := Without(g0, d), Without(g, d);
            && Extends(g0', g') && NewLinked(lib, g0', g', imgs)
            && (forall id :: id in g' ==> id in g0' || id in IDs(imgs))
  {
    assert Base(imgs).id in IDs(imgs);
  }

  lemma WithoutChain(lib: Library, g: Graph, imgs: seq<Descriptor>, k: nat, d: seq<ID>)
    requires k <= |imgs| && ChainFrom(lib, g, imgs, k) && (forall x :: x in d ==> x !in IDs(imgs))
    ensures ChainFrom(lib, Without(g, d), imgs, k)
  {
    forall j | k <= j < |imgs| ensures InPlace(lib, Without(g, d), imgs, j) {
      assert InPlace(lib, g, imgs, j) && imgs[j].id in IDs(imgs);
      ValidatesFrame(lib, g, Without(g, d), imgs, j);
    }
  }

  /**
    At any point of the extraction: after a deletion without force, the state is one that the pull
    could have reached from the initial graph without the deleted images.
   */
  lemma DeleteKeepsProgress(lib: Library, g0: Graph, s: State, imgs: seq<Descriptor>, k: nat, name: Name, noprune: bool)
    requires imgs != [] && k <= |imgs| && Acyclic(s.graph) && IDs(imgs) <= s.retained
    requires Progress(lib, g0, s.graph, imgs, k)
    ensures var d := Delete(s, name, true, false, noprune).deleted;
            Progress(lib, Without(g0, d), Without(s.graph, d), imgs, k)
  {
    var g, d := s.graph, Delete(s, name, true, false, noprune).deleted;
    var g0', g' := Without(g0, d), Without(g, d);
    HeldLayersStay(s, name, noprune, imgs);
    DeleteKeepsParents(s, name, true, false, noprune);
    WithoutLinked(lib, g0, g, imgs, d);
    assert forall j :: 0 <= j < |imgs| ==> imgs[j].id in IDs(imgs);
    if Closed(g0') {
      LinkedClosedIff(lib, g0', g', imgs);
    }
    if Sits(lib, g0', imgs) {
      WithoutChain(lib, g, imgs, k, d);
    }
  }
}

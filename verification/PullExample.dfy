/**
  A pull that leaves an open graph: one layer, whose v1 image brings a parent of its own, pulled
  into an empty graph. A second pull does not recognise it.
 */
module PullExample {
  import opened Options
  import opened ImageConfig
  import opened ImageGraph
  import opened Probing
  import opened ManifestSpec
  import opened Manifest
  import opened PullSpec
  import opened PullGraph
  import opened PullDistinct
  import opened Extraction
  import opened RetainedSpec
  import opened Retained
  import opened TagStore
  import opened PullAgain

  /** A library in which every v1 image brings the parent `p`. */
  const Foreign: Library :=
    Library(v1 => Some(Image("i", "")), v1 => Some(map["parent_id" := "p"]), x => x != "", x => true, c => "s", x => x + "n")

  const Config: Fields := map["parent_id" := "p", "layer_id" := "l"]

  const Layer: Descriptor := Descriptor("s", "", "s", "i", Config, "v")

  const After: Graph := map["s" := Entry("p", Some("l"), Some("v"))]

  lemma LayerInfos()
    ensures Infos(Foreign, ["l"], ["v"]) == Some([Layer])
  {
    var fields: Fields := map["parent_id" := "p"];
    assert Foreign.fields("v") == Some(fields);
    assert fields["layer_id" := "l"] - Dropped == Config;
    assert MakeImageConfig(Foreign, "v", "l", "") == Some(Config);
    assert NewDescriptor(Foreign, "v", "l", "") == Some(Layer);
    assert Infos(Foreign, ["l"][1..], ["v"][1..]) == Some([]);
    assert [Layer] + [] == [Layer];
  }

  lemma LayerDescribable()
    ensures Describable(Foreign, ["l"], ["v"])
  {
    var images := Images(Foreign, ["v"]);
    assert images == [Image("i", "")];
    assert Ends(images, 1) == [];
    assert Ends(images, 0) == [0];
    assert Pick(["l"], [0]) == ["l"] && Pick(["v"], [0]) == ["v"];
    LayerInfos();
  }

  lemma LayerChosen()
    ensures Spreads(Foreign, map[], [Layer]) && WithParents(Choose(Foreign, map[], [Layer]).imgs) == [Layer]
  {
    assert [Layer][1..] == [];
    assert Choose(Foreign, map[], []) == Choice([], true);
    assert Choose(Foreign, map[], [Layer]) == ChooseTop(Foreign, map[], Layer, Choice([], true));
    assert [Layer] + [] == [Layer];
  }

  lemma LayerProgress()
    ensures Progress(Foreign, map[], After, [Layer], 0)
  {
    assert [Layer][0].id in IDs([Layer]);
    assert StoredParent(Foreign, Layer) == "p";
    assert "s" in After && After["s"].parent == "p" && "p" !in After;
  }

  /** What the pull reads from the manifest. */
  lemma LayerRead()
    ensures Sound(Foreign) && ManifestSpreads(Foreign, map[], ["l"], ["v"]) && Describable(Foreign, ["l"], ["v"])
    ensures forall ls, hs, imgs :: ReadFrom(Foreign, map[], ["l"], ["v"], ls, hs, false, imgs) ==> imgs == [Layer]
  {
    LayerInfos();
    LayerDescribable();
    LayerChosen();
    var images := Images(Foreign, ["v"]);
    assert images == [Image("i", "")];
    assert Ends(images, 1) == [];
    assert Ends(images, 0) == [0];
    assert Pick(["l"], [0]) == ["l"] && Pick(["v"], [0]) == ["v"];
  }

  /** The pull succeeds, without any fault, and leaves an image whose parent is missing. */
  method PullPlantsMissingParent() returns (store: TagStore, r: PullResult)
    ensures r.Pulled? && !Closed(store.graph)
  {
    var retained := new RetainedLayers();
    store := new TagStore(map[], map[], retained);
    var m := new Manifest(["l"], ["v"]);
    LayerRead();
    ghost var imgs;
    r, imgs := store.PullTag(Foreign, m, "repo", "latest", "session", false, i => NoFault);
    assert imgs == [Layer];
    assert StoredParent(Foreign, Layer) == "p" && IDs([Layer]) == {"s"};
    PullClosedIff(Foreign, map[], store.graph, [Layer]);
  }

  lemma ForeignHashes()
    ensures HashesApart(Foreign) && Spreads(Foreign, After, [Layer])
  {
    assert Probe(Foreign.next, "s", 0) == "s" && Probe(Foreign.next, "s", 1) == "sn";
    assert |After| == 1;
    forall x, c ensures Foreign.next(x) != Foreign.strongID(c) {
      assert x == "" ==> x + "n" == "n";
      assert x != "" ==> |x + "n"| > 1;
    }
  }

  lemma LayerHashed()
    ensures Hashed(Foreign, ["l"], ["v"], [Layer]) && AllStrong([Layer])
  {
    LayerInfos();
    InfosHashed(Foreign, ["l"], ["v"]);
  }

  /** Pulled again into the graph that it left, the same manifest is given another ID. */
  lemma ForeignIsPulledAgain()
    ensures Spreads(Foreign, After, [Layer])
    ensures WithParents(Choose(Foreign, After, [Layer]).imgs) != [Layer]
  {
    ForeignHashes();
    LayerHashed();
    LayerChosen();
    LayerProgress();
    SecondPullIsIdleIff(Foreign, ["l"], ["v"], [Layer], [Layer], map[], After);
  }
}

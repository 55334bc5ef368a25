/**
  Pulling the same manifest twice. After a successful pull of a plain manifest the choice of IDs
  comes out the same, nothing is missing, and the second pull registers nothing.
 */
module PullAgain {
  import opened ImageConfig
  import opened ImageGraph
  import opened Probing
  import opened PullSpec
  import opened PullGraph
  import opened PullDistinct
  import opened Extraction
  import opened TagStore

  // ---------- one position ----------

  lemma FrameValidates(lib: Library, g: Graph, g': Graph, id: ID, imgs: seq<Descriptor>, i: nat)
    requires i < |imgs| && Extends(g, g') && id in g
    ensures ValidatesAt(lib, g', id, imgs, i) == ValidatesAt(lib, g, id, imgs, i)
  {
  }

  /** Probing in the grown graph stops at the same try. */
  lemma ProbeAgain(lib: Library, g: Graph, g': Graph, cur: seq<Descriptor>, x: ID)
    requires cur != [] && Extends(g, g')
    requires Stops(lib.next, x, Rejected(lib, g, cur, 0), 0) && Stops(lib.next, x, Rejected(lib, g', cur, 0), 0)
    requires var m := FirstFree(lib.next, x, Rejected(lib, g, cur, 0), 0);
             Probe(lib.next, x, m) !in Rejected(lib, g', cur, 0)
    ensures FirstFree(lib.next, x, Rejected(lib, g', cur, 0), 0) == FirstFree(lib.next, x, Rejected(lib, g, cur, 0), 0)
  {
  }

  lemma TopAgain(lib: Library, g: Graph, g': Graph, d: Descriptor, below: Choice, below': Choice)
    requires SpreadsAt(lib, g, d.id) && SpreadsAt(lib, g', d.id) && Extends(g, g')
    requires below'.imgs == below.imgs && (below.reuse ==> below'.reuse)
    requires var c := ChooseTop(lib, g, d, below).imgs;
             ValidatesAt(lib, g', c[0].id, c, 0) && (d.id in g' ==> d.id in g || c[0].id == d.id)
    ensures ChooseTop(lib, g', d, below').imgs == ChooseTop(lib, g, d, below).imgs
    ensures ChooseTop(lib, g, d, below).reuse ==> ChooseTop(lib, g', d, below').reuse
  {
    var cur := [d] + below.imgs;
    var c := ChooseTop(lib, g, d, below).imgs;
    assert forall id :: ValidatesAt(lib, g', id, c, 0) == ValidatesAt(lib, g', id, cur, 0) by {
      assert c[0].strongID == d.strongID && c[1..] == below.imgs && cur[1..] == below.imgs;
      assert ParentID(c, 0) == ParentID(cur, 0) && StrongParent(c, 0) == StrongParent(cur, 0);
    }
    if d.id in g {
      FrameValidates(lib, g, g', d.id, cur, 0);
      if !ValidatesAt(lib, g, d.id, cur, 0) {
        ProbingStops(lib, g, cur, 0, d.id);
        ProbingStops(lib, g', cur, 0, d.id);
        ProbeAgain(lib, g, g', cur, d.id);
      }
    } else if below.reuse && ValidatesAt(lib, g, d.compatibilityID, cur, 0) {
      FrameValidates(lib, g, g', d.compatibilityID, cur, 0);
      assert d.id !in g';
    }
  }

  // ---------- the whole choice ----------

  /** A strong ID that has appeared in the graph is the ID chosen for its own position. */
  ghost predicate NoCollision(g: Graph, g': Graph, infos: seq<Descriptor>, c: seq<Descriptor>)
    requires |c| == |infos|
  {
    forall i :: 0 <= i < |infos| && infos[i].id in g' ==> infos[i].id in g || c[i].id == infos[i].id
  }

  lemma {:induction false} ChooseAgain(lib: Library, g: Graph, g': Graph, infos: seq<Descriptor>)
    requires Spreads(lib, g, infos) && Spreads(lib, g', infos) && Extends(g, g')
    requires ChainFrom(lib, g', Choose(lib, g, infos).imgs, 0)
    requires NoCollision(g, g', infos, Choose(lib, g, infos).imgs)
    ensures Choose(lib, g', infos).imgs == Choose(lib, g, infos).imgs
    ensures Choose(lib, g, infos).reuse ==> Choose(lib, g', infos).reuse
  {
    if infos != [] {
      var below := Choose(lib, g, infos[1..]);
      var c := Choose(lib, g, infos).imgs;
      assert c == ChooseTop(lib, g, infos[0], below).imgs && c[1..] == below.imgs;
      forall i | 0 <= i < |below.imgs| ensures InPlace(lib, g', below.imgs, i) {
        assert InPlace(lib, g', c, i + 1);
      }
      forall i | 0 <= i < |infos[1..]| && infos[1..][i].id in g'
        ensures infos[1..][i].id in g || below.imgs[i].id == infos[1..][i].id
      {
        assert infos[1..][i] == infos[i + 1] && below.imgs[i] == c[i + 1];
      }
      ChooseAgain(lib, g, g', infos[1..]);
      assert InPlace(lib, g', c, 0);
      TopAgain(lib, g, g', infos[0], below, Choose(lib, g', infos[1..]));
    }
  }

  lemma NoneCollides(lib: Library, g: Graph, g': Graph, layers: seq<string>, history: seq<string>, infos: seq<Descriptor>)
    requires Sound(lib) && HashesApart(lib) && Spreads(lib, g, infos)
    requires Hashed(lib, layers, history, infos) && AllStrong(infos) && Distinct(infos)
    requires forall id :: id in g' ==> id in g || id in IDs(Choose(lib, g, infos).imgs)
    ensures NoCollision(g, g', infos, Choose(lib, g, infos).imgs)
  {
    var c := Choose(lib, g, infos).imgs;
    forall i | 0 <= i < |infos| && infos[i].id in g' && infos[i].id !in g ensures c[i].id == infos[i].id {
      var j :| 0 <= j < |c| && c[j].id == infos[i].id;
      ChosenOrigin(lib, g, infos, j);
      var m: nat :| c[j].id == Probe(lib.next, infos[j].id, m);
      assert infos[i] in infos && infos[j] in infos;
      assert Level(lib, layers, history, infos, i);
    }
  }

  lemma ChosenInPlace(lib: Library, g: Graph, c: seq<Descriptor>)
    requires ChainFrom(lib, g, WithParents(c), 0)
    ensures ChainFrom(lib, g, c, 0)
  {
    var w := WithParents(c);
    forall i | 0 <= i < |c| ensures InPlace(lib, g, c, i) {
      assert InPlace(lib, g, w, i);
      assert w[i].id == c[i].id && w[i].strongID == c[i].strongID;
      if i + 1 < |c| {
        assert w[i + 1].id == c[i + 1].id && w[i + 1].strongID == c[i + 1].strongID;
      }
    }
  }

  lemma WithParentsIDs(c: seq<Descriptor>)
    ensures IDs(WithParents(c)) == IDs(c)
  {
    var w := WithParents(c);
    forall i | 0 <= i < |c| ensures w[i].id == c[i].id && w[i].id in IDs(w) && c[i].id in IDs(c) {
      assert w[i] == w[i] && c[i] == c[i];
    }
  }

  /** Where all layers are present, a pull that only adds layers adds nothing. */
  lemma NothingToAdd(lib: Library, g: Graph, g': Graph, imgs: seq<Descriptor>)
    requires imgs != [] && Grown(lib, g, g', imgs)
    requires forall i :: 0 <= i < |imgs| ==> imgs[i].id in g
    ensures g' == g
  {
  }

  lemma SameChoice(lib: Library, layers: seq<string>, history: seq<string>, infos: seq<Descriptor>, c: seq<Descriptor>,
                   g: Graph, g': Graph)
    requires Sound(lib) && HashesApart(lib) && Spreads(lib, g, infos) && Spreads(lib, g', infos)
    requires Hashed(lib, layers, history, infos) && AllStrong(infos) && Distinct(infos)
    requires c == Choose(lib, g, infos).imgs && c != []
    requires Extends(g, g') && (forall id :: id in g' ==> id in g || id in IDs(WithParents(c)))
    requires ChainFrom(lib, g', WithParents(c), 0)
    ensures Choose(lib, g', infos).imgs == c
  {
    ChosenInPlace(lib, g', c);
    WithParentsIDs(c);
    NoneCollides(lib, g, g', layers, history, infos);
    ChooseAgain(lib, g, g', infos);
  }

  /** A base that was added with a parent of its own never validates. */
  lemma ForeignBaseIsRejected(lib: Library, g: Graph, g': Graph, imgs: seq<Descriptor>)
    requires imgs != [] && !Sits(lib, g, imgs) && Progress(lib, g, g', imgs, 0)
    ensures !FreeOrValid(lib, g', imgs)
  {
    assert imgs[|imgs| - 1].id in g';
    assert !FreeOrValidAt(lib, g', imgs, |imgs| - 1);
  }

  /**
    After a successful pull of a manifest with distinct strong IDs, a second pull chooses the same
    IDs exactly when the base was there before the first or names no parent of its own; then it
    finds every layer in place, and whatever it reports it leaves the graph as it is.
   */
  lemma SecondPullIsIdleIff(lib: Library, layers: seq<string>, history: seq<string>, infos: seq<Descriptor>,
                            imgs: seq<Descriptor>, g: Graph, g': Graph)
    requires Sound(lib) && HashesApart(lib) && Spreads(lib, g, infos) && Spreads(lib, g', infos)
    requires infos != [] && Hashed(lib, layers, history, infos) && AllStrong(infos) && Distinct(infos)
    requires imgs == WithParents(Choose(lib, g, infos).imgs)
    requires "" !in g && Progress(lib, g, g', imgs, 0)
    ensures WithParents(Choose(lib, g', infos).imgs) == imgs <==> Sits(lib, g, imgs)
    ensures Sits(lib, g, imgs) ==>
              ChainFrom(lib, g', imgs, 0) && forall g'': Graph :: Grown(lib, g', g'', imgs) ==> g'' == g'
  {
    if Sits(lib, g, imgs) {
      SameChoice(lib, layers, history, infos, Choose(lib, g, infos).imgs, g, g');
      forall g'': Graph | Grown(lib, g', g'', imgs) ensures g'' == g' {
        NothingToAdd(lib, g', g'', imgs);
      }
    } else {
      ForeignBaseIsRejected(lib, g, g', imgs);
      ChoiceIsFreeOrValid(lib, g', infos);
      WithParentsFreeOrValid(lib, g', Choose(lib, g', infos).imgs);
    }
  }

  /** In particular for a base that brings no parent of its own. */
  lemma SecondPullIsIdle(lib: Library, layers: seq<string>, history: seq<string>, infos: seq<Descriptor>,
                         imgs: seq<Descriptor>, g: Graph, g': Graph)
    requires Sound(lib) && Injective(lib) && HashesApart(lib) && Spreads(lib, g, infos) && Spreads(lib, g', infos)
    requires infos != [] && Hashed(lib, layers, history, infos) && AllStrong(infos) && PlainBase(lib, history)
    requires imgs == WithParents(Choose(lib, g, infos).imgs)
    requires "" !in g && Progress(lib, g, g', imgs, 0)
    ensures WithParents(Choose(lib, g', infos).imgs) == imgs && ChainFrom(lib, g', imgs, 0)
    ensures forall g'': Graph :: Grown(lib, g', g'', imgs) ==> g'' == g'
  {
    forall i, j | 0 <= i < j < |infos| ensures infos[i].id != infos[j].id {
      assert infos[i] in infos && infos[j] in infos;
      StrongIDsDistinct(lib, layers, history, infos, i, j);
    }
    ChosenReady(lib, g, layers, history, infos);
    PlainBaseStoresNone(lib, layers, history, imgs);
    SecondPullIsIdleIff(lib, layers, history, infos, imgs, g, g');
  }
}

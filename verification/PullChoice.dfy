/**
  Which ID a pull chooses for each layer (`attemptIDReuse` in `graph/pull_v2.go`), said on the list
  that comes out and on what is in the graph: the strong ID where it is present and valid; the
  first free or valid try where it is taken by something else; and where it is absent the v1 ID,
  as long as every layer from there down to the base is present and valid under one of its IDs.
 */
module PullChoice {
  import opened ImageConfig
  import opened ImageGraph
  import opened Probing
  import opened PullSpec

  /** The layer is present and valid: under its strong ID if that is taken, else under its v1 ID. */
  predicate Recognised(lib: Library, g: Graph, infos: seq<Descriptor>, c: seq<Descriptor>, j: nat)
    requires j < |infos| == |c|
  {
    ValidatesAt(lib, g, if infos[j].id in g then infos[j].id else infos[j].compatibilityID, c, j)
  }

  /** So are all layers from position `i` down to the base. */
  ghost predicate RecognisedFrom(lib: Library, g: Graph, infos: seq<Descriptor>, c: seq<Descriptor>, i: nat)
    requires i <= |infos| == |c|
  {
    forall j :: i <= j < |infos| ==> Recognised(lib, g, infos, c, j)
  }

  /** `id` is the first try after `x` that is free or valid for position `i`. */
  ghost predicate FirstTry(lib: Library, g: Graph, c: seq<Descriptor>, i: nat, x: ID, id: ID)
    requires i < |c|
  {
    exists m: nat :: m > 0 && id == Probe(lib.next, x, m) && TakenUpTo(lib, g, c, i, x, m)
                     && (id !in g || ValidatesAt(lib, g, id, c, i))
  }

  ghost predicate TakenUpTo(lib: Library, g: Graph, c: seq<Descriptor>, i: nat, x: ID, m: nat)
    requires i < |c|
  {
    forall k: nat :: k < m ==> Probe(lib.next, x, k) in g && !ValidatesAt(lib, g, Probe(lib.next, x, k), c, i)
  }

  ghost predicate RightAt(lib: Library, g: Graph, infos: seq<Descriptor>, c: seq<Descriptor>, i: nat)
    requires i < |infos| == |c|
  {
    var strong := infos[i].id;
    if strong in g then
      if ValidatesAt(lib, g, strong, c, i) then c[i].id == strong else FirstTry(lib, g, c, i, strong, c[i].id)
    else
      c[i].id == if RecognisedFrom(lib, g, infos, c, i) then infos[i].compatibilityID else strong
  }

  ghost predicate RightlyChosen(lib: Library, g: Graph, infos: seq<Descriptor>, c: seq<Descriptor>) {
    SameButIDs(infos, c) && forall i :: 0 <= i < |infos| ==> RightAt(lib, g, infos, c, i)
  }

  // ---------- the choice is right ----------

  lemma ShiftValidates(lib: Library, g: Graph, id: ID, d: Descriptor, below: seq<Descriptor>, i: nat)
    requires i < |below|
    ensures ValidatesAt(lib, g, id, [d] + below, i + 1) == ValidatesAt(lib, g, id, below, i)
  {
    var c := [d] + below;
    assert c[i + 1] == below[i];
    assert i + 1 < |below| ==> c[i + 2] == below[i + 1];
  }

  lemma ShiftRecognised(lib: Library, g: Graph, infos: seq<Descriptor>, d: Descriptor, below: seq<Descriptor>, i: nat)
    requires infos != [] && |infos| == 1 + |below| && i <= |below|
    ensures RecognisedFrom(lib, g, infos, [d] + below, i + 1) <==> RecognisedFrom(lib, g, infos[1..], below, i)
  {
    var c := [d] + below;
    forall j | i <= j < |below| ensures Recognised(lib, g, infos, c, j + 1) <==> Recognised(lib, g, infos[1..], below, j) {
      var id := infos[j + 1].id;
      assert infos[1..][j] == infos[j + 1];
      ShiftValidates(lib, g, if id in g then id else infos[j + 1].compatibilityID, d, below, j);
    }
    if RecognisedFrom(lib, g, infos, c, i + 1) {
      forall j | i <= j < |below| ensures Recognised(lib, g, infos[1..], below, j) {
        assert Recognised(lib, g, infos, c, j + 1);
      }
    }
    if RecognisedFrom(lib, g, infos[1..], below, i) {
      forall j | i + 1 <= j < |infos| ensures Recognised(lib, g, infos, c, j) {
        assert Recognised(lib, g, infos[1..], below, j - 1);
      }
    }
  }

  lemma ShiftTries(lib: Library, g: Graph, d: Descriptor, below: seq<Descriptor>, i: nat, x: ID, id: ID)
    requires i < |below| && FirstTry(lib, g, below, i, x, id)
    ensures FirstTry(lib, g, [d] + below, i + 1, x, id)
  {
    var c := [d] + below;
    var m: nat :| m > 0 && id == Probe(lib.next, x, m) && TakenUpTo(lib, g, below, i, x, m)
                  && (id !in g || ValidatesAt(lib, g, id, below, i));
    forall k: nat | k < m
      ensures Probe(lib.next, x, k) in g && !ValidatesAt(lib, g, Probe(lib.next, x, k), c, i + 1)
    {
      ShiftValidates(lib, g, Probe(lib.next, x, k), d, below, i);
    }
    ShiftValidates(lib, g, id, d, below, i);
    assert TakenUpTo(lib, g, c, i + 1, x, m);
  }

  lemma ShiftRight(lib: Library, g: Graph, infos: seq<Descriptor>, d: Descriptor, below: seq<Descriptor>, i: nat)
    requires infos != [] && |infos| == 1 + |below| && i < |below| && RightAt(lib, g, infos[1..], below, i)
    ensures RightAt(lib, g, infos, [d] + below, i + 1)
  {
    assert infos[1..][i] == infos[i + 1] && ([d] + below)[i + 1] == below[i];
    ShiftValidates(lib, g, infos[i + 1].id, d, below, i);
    ShiftRecognised(lib, g, infos, d, below, i);
    if infos[i + 1].id in g && !ValidatesAt(lib, g, infos[i + 1].id, below, i) {
      ShiftTries(lib, g, d, below, i, infos[i + 1].id, below[i].id);
    }
  }

  /** Which entry validates at the top does not depend on the ID chosen there. */
  lemma TopValidates(lib: Library, g: Graph, d: Descriptor, x: ID, below: seq<Descriptor>)
    ensures forall id :: ValidatesAt(lib, g, id, [d.(id := x)] + below, 0) == ValidatesAt(lib, g, id, [d] + below, 0)
  {
    var a, b := [d.(id := x)] + below, [d] + below;
    assert ParentID(a, 0) == ParentID(b, 0) && StrongParent(a, 0) == StrongParent(b, 0);
  }

  lemma TopTries(lib: Library, g: Graph, d: Descriptor, x: ID, below: seq<Descriptor>, m: nat)
    requires var cur, r := [d] + below, Rejected(lib, g, [d] + below, 0);
             && d.id in r && Stops(lib.next, d.id, r, 0)
             && m == FirstFree(lib.next, d.id, r, 0) && x == Probe(lib.next, d.id, m)
    ensures FirstTry(lib, g, [d.(id := x)] + below, 0, d.id, x)
  {
    TopValidates(lib, g, d, x, below);
    assert Probe(lib.next, d.id, 0) == d.id;
    assert TakenUpTo(lib, g, [d.(id := x)] + below, 0, d.id, m);
  }

  /** One step: the top is right if reuse tells whether all below is recognised, and then reuse tells it here. */
  lemma TopIsRight(lib: Library, g: Graph, infos: seq<Descriptor>, below: Choice)
    requires infos != [] && |infos| == 1 + |below.imgs| && SpreadsAt(lib, g, infos[0].id)
    requires below.reuse <==> RecognisedFrom(lib, g, infos[1..], below.imgs, 0)
    ensures var t := ChooseTop(lib, g, infos[0], below);
            RightAt(lib, g, infos, t.imgs, 0) && (t.reuse <==> RecognisedFrom(lib, g, infos, t.imgs, 0))
  {
    var d := infos[0];
    var t := ChooseTop(lib, g, d, below);
    var x := t.imgs[0].id;
    assert t.imgs == [d.(id := x)] + below.imgs;
    TopValidates(lib, g, d, x, below.imgs);
    ShiftRecognised(lib, g, infos, d.(id := x), below.imgs, 0);
    assert RecognisedFrom(lib, g, infos, t.imgs, 0) <==>
           Recognised(lib, g, infos, t.imgs, 0) && RecognisedFrom(lib, g, infos, t.imgs, 1);
    if d.id in g && !ValidatesAt(lib, g, d.id, [d] + below.imgs, 0) {
      ProbingStops(lib, g, [d] + below.imgs, 0, d.id);
      TopTries(lib, g, d, x, below.imgs, FirstFree(lib.next, d.id, Rejected(lib, g, [d] + below.imgs, 0), 0));
    }
  }

  lemma {:induction false} ChoiceIsRight(lib: Library, g: Graph, infos: seq<Descriptor>)
    requires Spreads(lib, g, infos)
    ensures var c := Choose(lib, g, infos);
            && (c.reuse <==> RecognisedFrom(lib, g, infos, c.imgs, 0))
            && forall i :: 0 <= i < |infos| ==> RightAt(lib, g, infos, c.imgs, i)
  {
    if infos != [] {
      var below := Choose(lib, g, infos[1..]);
      ChoiceIsRight(lib, g, infos[1..]);
      TopIsRight(lib, g, infos, below);
      var c := Choose(lib, g, infos).imgs;
      assert c == [c[0]] + below.imgs;
      forall i | 0 <= i < |infos| ensures RightAt(lib, g, infos, c, i) {
        if i > 0 {
          ShiftRight(lib, g, infos, c[0], below.imgs, i - 1);
        }
      }
    }
  }

  /** The parents that are filled in last make no difference. */
  lemma WithParentsRight(lib: Library, g: Graph, infos: seq<Descriptor>, c: seq<Descriptor>, i: nat)
    requires i < |infos| == |c| && RightAt(lib, g, infos, c, i)
    ensures RightAt(lib, g, infos, WithParents(c), i)
  {
    var w := WithParents(c);
    forall id, j: nat | j < |c| ensures ValidatesAt(lib, g, id, w, j) == ValidatesAt(lib, g, id, c, j) {
      assert w[j].strongID == c[j].strongID && w[j].id == c[j].id;
      if j + 1 < |c| {
        assert w[j + 1].id == c[j + 1].id && w[j + 1].strongID == c[j + 1].strongID;
      }
    }
    assert w[i].id == c[i].id;
    forall j | i <= j < |c| ensures Recognised(lib, g, infos, w, j) <==> Recognised(lib, g, infos, c, j) {}
    if infos[i].id in g && !ValidatesAt(lib, g, infos[i].id, c, i) {
      var x, id := infos[i].id, c[i].id;
      var m: nat :| m > 0 && id == Probe(lib.next, x, m) && TakenUpTo(lib, g, c, i, x, m)
                    && (id !in g || ValidatesAt(lib, g, id, c, i));
      assert TakenUpTo(lib, g, w, i, x, m);
    }
  }

  /** The list that `attemptIDReuse` leaves behind is rightly chosen. */
  lemma ReuseIsRight(lib: Library, g: Graph, infos: seq<Descriptor>)
    requires Spreads(lib, g, infos)
    ensures RightlyChosen(lib, g, infos, WithParents(Choose(lib, g, infos).imgs))
  {
    var c := Choose(lib, g, infos).imgs;
    ChoiceIsFreeOrValid(lib, g, infos);
    ChoiceIsRight(lib, g, infos);
    var w := WithParents(c);
    forall i | 0 <= i < |infos| ensures RightAt(lib, g, infos, w, i) {
      assert RightAt(lib, g, infos, c, i);
      WithParentsRight(lib, g, infos, c, i);
    }
    forall i | 0 <= i < |infos| ensures infos[i].(id := w[i].id, parent := w[i].parent) == w[i] {
      assert infos[i].(id := c[i].id, parent := c[i].parent) == c[i];
    }
  }

  /**
    Where the strong IDs are absent from position `i` down to the base, the layer gets its v1 ID
    exactly when all v1 IDs from there down validate for their positions.
   */
  lemma ReuseIff(lib: Library, g: Graph, infos: seq<Descriptor>, c: seq<Descriptor>, i: nat)
    requires RightlyChosen(lib, g, infos, c) && i < |infos|
    requires forall j :: i <= j < |infos| ==> infos[j].id !in g
    ensures c[i].id == infos[i].compatibilityID <==>
            || infos[i].compatibilityID == infos[i].id
            || forall j :: i <= j < |infos| ==> ValidatesAt(lib, g, infos[j].compatibilityID, c, j)
  {
    assert RightAt(lib, g, infos, c, i);
    if RecognisedFrom(lib, g, infos, c, i) {
      forall j | i <= j < |infos| ensures ValidatesAt(lib, g, infos[j].compatibilityID, c, j) {
        assert Recognised(lib, g, infos, c, j);
      }
    } else {
      var j :| i <= j < |infos| && !Recognised(lib, g, infos, c, j);
      assert !ValidatesAt(lib, g, infos[j].compatibilityID, c, j);
    }
  }

  /** Only one list is rightly chosen. */
  lemma {:induction false} RightChoiceUnique(lib: Library, g: Graph, infos: seq<Descriptor>, a: seq<Descriptor>,
                                             b: seq<Descriptor>, i: nat)
    requires RightlyChosen(lib, g, infos, a) && RightlyChosen(lib, g, infos, b) && i < |infos|
    ensures a[i].id == b[i].id
    ensures RecognisedFrom(lib, g, infos, a, i) <==> RecognisedFrom(lib, g, infos, b, i)
    decreases |infos| - i
  {
    if i + 1 < |infos| {
      RightChoiceUnique(lib, g, infos, a, b, i + 1);
      SameStrong(infos, a, b, i + 1);
    }
    SameStrong(infos, a, b, i);
    assert RightAt(lib, g, infos, a, i) && RightAt(lib, g, infos, b, i);
    assert forall id :: ValidatesAt(lib, g, id, a, i) == ValidatesAt(lib, g, id, b, i);
    assert Recognised(lib, g, infos, a, i) <==> Recognised(lib, g, infos, b, i);
    assert RecognisedFrom(lib, g, infos, a, i) <==> RecognisedFrom(lib, g, infos, b, i) by {
      SplitRecognised(lib, g, infos, a, i);
      SplitRecognised(lib, g, infos, b, i);
    }
    if infos[i].id in g && !ValidatesAt(lib, g, infos[i].id, a, i) {
      TriesUnique(lib, g, a, b, i, infos[i].id, a[i].id, b[i].id);
    }
  }

  lemma SameStrong(infos: seq<Descriptor>, a: seq<Descriptor>, b: seq<Descriptor>, i: nat)
    requires SameButIDs(infos, a) && SameButIDs(infos, b) && i < |infos|
    ensures a[i].strongID == b[i].strongID
  {
    assert infos[i].(id := a[i].id, parent := a[i].parent) == a[i];
    assert infos[i].(id := b[i].id, parent := b[i].parent) == b[i];
  }

  lemma SplitRecognised(lib: Library, g: Graph, infos: seq<Descriptor>, c: seq<Descriptor>, i: nat)
    requires i < |infos| == |c|
    ensures RecognisedFrom(lib, g, infos, c, i) <==>
            Recognised(lib, g, infos, c, i) && RecognisedFrom(lib, g, infos, c, i + 1)
  {
  }

  lemma TriesUnique(lib: Library, g: Graph, a: seq<Descriptor>, b: seq<Descriptor>, i: nat, x: ID, y: ID, z: ID)
    requires i < |a| == |b| && FirstTry(lib, g, a, i, x, y) && FirstTry(lib, g, b, i, x, z)
    requires forall id :: ValidatesAt(lib, g, id, a, i) == ValidatesAt(lib, g, id, b, i)
    ensures y == z
  {
    var m: nat :| m > 0 && y == Probe(lib.next, x, m) && TakenUpTo(lib, g, a, i, x, m) && (y !in g || ValidatesAt(lib, g, y, a, i));
    var n: nat :| n > 0 && z == Probe(lib.next, x, n) && TakenUpTo(lib, g, b, i, x, n) && (z !in g || ValidatesAt(lib, g, z, b, i));
  }
}

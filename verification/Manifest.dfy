/**
  `fixManifestLayers` (`graph/pull_v2.go`): checks a manifest's parent chain and cuts repeated
  layers out of it, in place.
 */
module ManifestSpec {
  import opened ImageConfig

  /** Every history entry decodes to an image with a valid ID. */
  ghost predicate Readable(lib: Library, history: seq<string>) {
    forall i :: 0 <= i < |history| ==> ReadableEntry(lib, history[i])
  }

  predicate ReadableEntry(lib: Library, v1: string) {
    lib.decode(v1).Some? && lib.validID(lib.decode(v1).value.id)
  }

  function Images(lib: Library, history: seq<string>): (images: seq<Image>)
    requires Readable(lib, history)
    ensures |images| == |history|
    ensures forall i :: 0 <= i < |images| ==> images[i] == lib.decode(history[i]).value
  {
    if history == [] then []
    else
      assert forall i :: 0 <= i < |history[1..]| ==> history[1..][i] == history[i + 1];
      [lib.decode(history[0]).value] + Images(lib, history[1..])
  }

  /** An ID comes back only directly after itself. */
  ghost predicate NoScatteredRepeat(images: seq<Image>) {
    forall j, k :: 0 <= j < k < |images| && images[j].id == images[k].id ==> images[k - 1].id == images[k].id
  }

  /** The next image is the parent, or has the same ID. */
  predicate Linked(images: seq<Image>, i: nat)
    requires i + 1 < |images|
  {
    images[i].id == images[i + 1].id || images[i].parent == images[i + 1].id
  }

  ghost predicate Acceptable(lib: Library, history: seq<string>)
    requires history != []
  {
    Readable(lib, history) &&
    var images := Images(lib, history);
    && images[|images| - 1].parent == ""
    && NoScatteredRepeat(images)
    && forall i :: 0 <= i < |images| - 1 ==> Linked(images, i)
  }

  // ---------- the ends of runs of equal IDs ----------

  predicate IsEnd(images: seq<Image>, k: nat)
    requires k < |images|
  {
    k + 1 == |images| || images[k].id != images[k + 1].id
  }

  /** The positions from `j` on that are the last of a run of equal IDs. */
  function Ends(images: seq<Image>, j: nat): (ks: seq<nat>)
    requires j <= |images|
    ensures forall t :: 0 <= t < |ks| ==> j <= ks[t] < |images|
    decreases |images| - j
  {
    if j == |images| then []
    else if IsEnd(images, j) then [j] + Ends(images, j + 1)
    else Ends(images, j + 1)
  }

  function Pick<T>(xs: seq<T>, ks: seq<nat>): (r: seq<T>)
    requires forall t :: 0 <= t < |ks| ==> ks[t] < |xs|
    ensures |r| == |ks|
    ensures forall t :: 0 <= t < |ks| ==> r[t] == xs[ks[t]]
  {
    seq(|ks|, t requires 0 <= t < |ks| => xs[ks[t]])
  }

  /** Only ends of runs are listed, in order; the last position is the last end. */
  lemma {:induction false} EndsInOrder(images: seq<Image>, j: nat)
    requires j <= |images|
    ensures AreEnds(images, Ends(images, j)) && Increasing(Ends(images, j))
    decreases |images| - j
  {
    if j < |images| {
      EndsInOrder(images, j + 1);
      if IsEnd(images, j) {
        ConsInOrder(images, j, Ends(images, j + 1));
      }
    }
  }

  ghost predicate AreEnds(images: seq<Image>, ks: seq<nat>) {
    forall t :: 0 <= t < |ks| ==> ks[t] < |images| && IsEnd(images, ks[t])
  }

  ghost predicate Increasing(ks: seq<nat>) {
    forall s, t :: 0 <= s < t < |ks| ==> ks[s] < ks[t]
  }

  lemma ConsInOrder(images: seq<Image>, j: nat, ks: seq<nat>)
    requires j < |images| && IsEnd(images, j) && AreEnds(images, ks) && Increasing(ks)
    requires forall t :: 0 <= t < |ks| ==> j < ks[t]
    ensures AreEnds(images, [j] + ks) && Increasing([j] + ks)
  {
  }

  lemma {:induction false} EndsWithBase(images: seq<Image>, j: nat)
    requires j < |images|
    ensures Ends(images, j) != [] && Ends(images, j)[|Ends(images, j)| - 1] == |images| - 1
    decreases |images| - j
  {
    if j + 1 < |images| {
      EndsWithBase(images, j + 1);
    }
  }

  /** No end is left out: there is none before the first listed one, nor between two neighbours. */
  lemma {:induction false} EndsComplete(images: seq<Image>, j: nat, t: nat, k: nat)
    requires j <= |images| && t < |Ends(images, j)| && k < Ends(images, j)[t]
    requires if t == 0 then j <= k else Ends(images, j)[t - 1] < k
    ensures !IsEnd(images, k)
    decreases |images| - j
  {
    if !IsEnd(images, j) {
      if t == 0 && k == j {
      } else {
        EndsComplete(images, j + 1, t, k);
      }
    } else if t > 0 {
      EndsComplete(images, j + 1, t - 1, k);
    }
  }

  /** A stretch without ends has one ID. */
  lemma {:induction false} RunHasOneID(images: seq<Image>, a: nat, b: nat)
    requires a <= b < |images|
    requires forall k :: a <= k < b ==> !IsEnd(images, k)
    ensures images[a].id == images[b].id
    decreases b - a
  {
    if a < b {
      assert !IsEnd(images, a);
      RunHasOneID(images, a + 1, b);
    }
  }

  /** Two ends with the same ID are the same position. */
  lemma {:induction false} EndsDistinct(images: seq<Image>, j: nat, k: nat)
    requires NoScatteredRepeat(images)
    requires j < k < |images| && IsEnd(images, j)
    ensures images[j].id != images[k].id
    decreases k
  {
    if images[j].id == images[k].id {
      assert images[k - 1].id == images[k].id;
      if j < k - 1 {
        EndsDistinct(images, j, k - 1);
      }
    }
  }

  /** What the kept entries look like: distinct IDs, each the child of the next, the last without parent. */
  ghost predicate IsChain(images: seq<Image>) {
    && images != [] && images[|images| - 1].parent == ""
    && (forall s, t :: 0 <= s < t < |images| ==> images[s].id != images[t].id)
    && (forall t :: 0 < t < |images| ==> images[t - 1].parent == images[t].id)
  }

  lemma PickedDistinct(images: seq<Image>, s: nat, t: nat)
    requires NoScatteredRepeat(images) && s < t < |Ends(images, 0)|
    ensures images[Ends(images, 0)[s]].id != images[Ends(images, 0)[t]].id
  {
    var ks := Ends(images, 0);
    EndsInOrder(images, 0);
    EndsDistinct(images, ks[s], ks[t]);
  }

  lemma PickedLinked(images: seq<Image>, t: nat)
    requires forall i :: 0 <= i < |images| - 1 ==> Linked(images, i)
    requires 0 < t < |Ends(images, 0)|
    ensures images[Ends(images, 0)[t - 1]].parent == images[Ends(images, 0)[t]].id
  {
    EndsInOrder(images, 0);
    var a, b := Ends(images, 0)[t - 1], Ends(images, 0)[t];
    assert IsEnd(images, a) && Linked(images, a);
    forall k | a + 1 <= k < b ensures !IsEnd(images, k) {
      EndsComplete(images, 0, t, k);
    }
    RunHasOneID(images, a + 1, b);
  }

  /** The images of the kept history entries form a chain. */
  lemma {:induction false} KeptIsChain(images: seq<Image>)
    requires images != [] && images[|images| - 1].parent == ""
    requires NoScatteredRepeat(images)
    requires forall i :: 0 <= i < |images| - 1 ==> Linked(images, i)
    ensures IsChain(Pick(images, Ends(images, 0)))
  {
    var ks := Ends(images, 0);
    var kept := Pick(images, ks);
    assert ks != [] && ks[|ks| - 1] == |images| - 1 by { EndsWithBase(images, 0); }
    forall s, t | 0 <= s < t < |kept| ensures kept[s].id != kept[t].id {
      PickedDistinct(images, s, t);
    }
    forall t | 0 < t < |kept| ensures kept[t - 1].parent == kept[t].id {
      PickedLinked(images, t);
    }
  }

  lemma PickReadable(lib: Library, history: seq<string>, ks: seq<nat>)
    requires Readable(lib, history) && forall t :: 0 <= t < |ks| ==> ks[t] < |history|
    ensures Readable(lib, Pick(history, ks))
    ensures Images(lib, Pick(history, ks)) == Pick(Images(lib, history), ks)
  {
  }

  lemma {:induction false} ChainEnds(images: seq<Image>, j: nat)
    requires IsChain(images) && j <= |images|
    ensures |Ends(images, j)| == |images| - j
    ensures forall t :: 0 <= t < |images| - j ==> Ends(images, j)[t] == j + t
    decreases |images| - j
  {
    if j < |images| {
      ChainEnds(images, j + 1);
    }
  }

  /** A chain is accepted and keeps all its entries. */
  lemma ChainIsFixed(lib: Library, history: seq<string>)
    requires Readable(lib, history) && IsChain(Images(lib, history))
    ensures Acceptable(lib, history)
    ensures Pick(history, Ends(Images(lib, history), 0)) == history
  {
    var images := Images(lib, history);
    ChainEnds(images, 0);
    forall i | 0 <= i < |images| - 1 ensures Linked(images, i) {
      assert images[i + 1 - 1].parent == images[i + 1].id;
    }
  }

  /**
    The kept entries of an accepted manifest are a chain, and a second application accepts them
    and changes nothing.
   */
  lemma {:induction false} FixIdempotent(lib: Library, history: seq<string>)
    requires history != [] && Acceptable(lib, history)
    ensures var kept := Pick(history, Ends(Images(lib, history), 0));
            && kept != [] && Acceptable(lib, kept) && IsChain(Images(lib, kept))
            && Pick(kept, Ends(Images(lib, kept), 0)) == kept
  {
    var images := Images(lib, history);
    KeptIsChain(images);
    PickReadable(lib, history, Ends(images, 0));
    ChainIsFixed(lib, Pick(history, Ends(images, 0)));
  }
}

module Manifest {
  import opened Options
  import opened ImageConfig
  import opened ManifestSpec

  datatype FixResult = Fixed | Unreadable | BaseHasParent | Repeated(id: ID) | BadParent(expected: ID, got: ID)

  class Manifest {
    var fsLayers: seq<string>
    var history: seq<string>

    constructor (fsLayers: seq<string>, history: seq<string>)
      ensures this.fsLayers == fsLayers && this.history == history
    {
      this.fsLayers := fsLayers;
      this.history := history;
    }
  }

  /** The first loop: decode every entry. */
  method ReadImages(lib: Library, history: seq<string>) returns (images: seq<Image>, ok: bool)
    ensures ok <==> Readable(lib, history)
    ensures ok ==> images == Images(lib, history)
  {
    images := [];
    for i := 0 to |history|
      invariant |images| == i
      invariant forall j :: 0 <= j < i ==> ReadableEntry(lib, history[j]) && images[j] == lib.decode(history[j]).value
    {
      var img := lib.decode(history[i]);
      if img.None? || !lib.validID(img.value.id) {
        assert !ReadableEntry(lib, history[i]);
        return images, false;
      }
      images := images + [img.value];
    }
    ok := true;
  }

  /** The ID at position `k` has been seen before, but not directly before. */
  ghost predicate ComesBack(images: seq<Image>, k: nat)
    requires k < |images|
  {
    k > 0 && images[k - 1].id != images[k].id && exists j :: 0 <= j < k && images[j].id == images[k].id
  }

  /** The second loop: no ID comes back except directly after itself. */
  method FindRepeat(images: seq<Image>) returns (r: Option<ID>)
    requires forall i :: 0 <= i < |images| ==> images[i].id != ""
    ensures r.None? <==> NoScatteredRepeat(images)
    ensures r.Some? ==> exists k :: 0 <= k < |images| && images[k].id == r.value && ComesBack(images, k)
  {
    var idmap: set<ID> := {};
    var lastID := "";
    for k := 0 to |images|
      invariant idmap == set j | 0 <= j < k :: images[j].id
      invariant lastID == if k == 0 then "" else images[k - 1].id
      invariant forall i, j :: 0 <= i < j < k && images[i].id == images[j].id ==> images[j - 1].id == images[j].id
    {
      var id := images[k].id;
      if id != lastID && id in idmap {
        var j :| 0 <= j < k && images[j].id == id;
        assert images[k - 1].id != images[k].id;
        assert ComesBack(images, k);
        return Some(id);
      }
      lastID := id;
      idmap := idmap + {id};
    }
    r := None;
  }

  /** `fixManifestLayers`, on the manifests that `verifyManifest` lets through. */
  method FixManifestLayers(lib: Library, m: Manifest) returns (r: FixResult)
    requires Sound(lib) && |m.fsLayers| == |m.history| > 0
    modifies m
    ensures r.Fixed? <==> Acceptable(lib, old(m.history))
    ensures r.Unreadable? <==> !Readable(lib, old(m.history))
    ensures !r.Unreadable? ==>
              var images := Images(lib, old(m.history));
              && (r.BaseHasParent? <==> images[|images| - 1].parent != "")
              && (r.Repeated? <==> !r.BaseHasParent? && !NoScatteredRepeat(images))
              && (r.Repeated? ==> exists k :: 0 <= k < |images| && images[k].id == r.id && ComesBack(images, k))
              && (r.BadParent? ==> FirstUnlinked(images, r.expected, r.got))
    ensures r.Fixed? ==>
              var ks := Ends(Images(lib, old(m.history)), 0);
              m.fsLayers == Pick(old(m.fsLayers), ks) && m.history == Pick(old(m.history), ks)
    ensures r.Unreadable? || r.BaseHasParent? || r.Repeated? ==>
              m.fsLayers == old(m.fsLayers) && m.history == old(m.history)
  {
    var images, ok := ReadImages(lib, m.history);
    if !ok {
      return Unreadable;
    }
    var n := |images|;
    if images[n - 1].parent != "" {
      return BaseHasParent;
    }
    var rep := FindRepeat(images);
    if rep.Some? {
      return Repeated(rep.value);
    }
    var layers, history;
    r, layers, history := CutRepeats(images, m.fsLayers, m.history);
    m.fsLayers, m.history := layers, history;
  }

  /** The entries of the ends from position `j` on. */
  function Kept<T>(xs: seq<T>, images: seq<Image>, j: nat): seq<T>
    requires |xs| == |images| && j <= |images|
    decreases |images| - j
  {
    if j == |images| then []
    else if IsEnd(images, j) then [xs[j]] + Kept(xs, images, j + 1)
    else Kept(xs, images, j + 1)
  }

  lemma PickCons<T>(xs: seq<T>, k: nat, ks: seq<nat>)
    requires k < |xs| && forall t :: 0 <= t < |ks| ==> ks[t] < |xs|
    ensures Pick(xs, [k] + ks) == [xs[k]] + Pick(xs, ks)
  {
  }

  lemma {:induction false} KeptIsPick<T>(xs: seq<T>, images: seq<Image>, j: nat)
    requires |xs| == |images| && j <= |images|
    ensures Kept(xs, images, j) == Pick(xs, Ends(images, j))
    decreases |images| - j
  {
    if j < |images| {
      KeptIsPick(xs, images, j + 1);
      if IsEnd(images, j) {
        PickCons(xs, j, Ends(images, j + 1));
      }
    }
  }

  /** `append(xs[:i], xs[i+1:]...)` */
  function RemoveAt<T>(xs: seq<T>, i: nat): (r: seq<T>)
    requires i < |xs|
    ensures |r| == |xs| - 1
  {
    xs[..i] + xs[i + 1..]
  }

  /** The list when the positions from `j` on have been dealt with, the last one first. */
  function CutFrom<T>(xs: seq<T>, images: seq<Image>, j: nat): (r: seq<T>)
    requires |xs| == |images| && j <= |images|
    ensures |r| >= j
    decreases |images| - j
  {
    if j == |images| then xs
    else if IsEnd(images, j) then CutFrom(xs, images, j + 1)
    else RemoveAt(CutFrom(xs, images, j + 1), j)
  }

  lemma RemoveMiddle<T>(xs: seq<T>, j: nat, tail: seq<T>)
    requires j < |xs|
    ensures RemoveAt(xs[..j + 1] + tail, j) == xs[..j] + tail
    ensures xs[..j] + ([xs[j]] + tail) == xs[..j + 1] + tail
  {
  }

  /** Cutting positions out leaves the entries of the ends behind the positions still to come. */
  lemma {:induction false} CutIsKept<T>(xs: seq<T>, images: seq<Image>, j: nat)
    requires |xs| == |images| && j <= |images|
    ensures CutFrom(xs, images, j) == xs[..j] + Kept(xs, images, j)
    decreases |images| - j
  {
    if j < |images| {
      CutIsKept(xs, images, j + 1);
      RemoveMiddle(xs, j, Kept(xs, images, j + 1));
    }
  }

  lemma CutIsPick<T>(xs: seq<T>, images: seq<Image>)
    requires |xs| == |images|
    ensures CutFrom(xs, images, 0) == Pick(xs, Ends(images, 0))
  {
    CutIsKept(xs, images, 0);
    KeptIsPick(xs, images, 0);
  }

  /** The position nearest the base whose parent is neither its own ID nor the next one: which was expected, which found. */
  ghost predicate FirstUnlinked(images: seq<Image>, expected: ID, got: ID) {
    exists j :: 0 <= j < |images| - 1 && UnlinkedAt(images, j, expected, got)
  }

  ghost predicate UnlinkedAt(images: seq<Image>, j: nat, expected: ID, got: ID)
    requires j + 1 < |images|
  {
    && !Linked(images, j) && images[j + 1].id == expected && images[j].parent == got
    && forall k :: j < k < |images| - 1 ==> Linked(images, k)
  }

  /** The last loop, backwards so that the indexes still to come stay valid. */
  method CutRepeats(images: seq<Image>, layers: seq<string>, history: seq<string>)
    returns (r: FixResult, layers': seq<string>, history': seq<string>)
    requires |images| == |layers| == |history| > 0
    ensures r.Fixed? || r.BadParent?
    ensures r.Fixed? <==> forall j :: 0 <= j < |images| - 1 ==> Linked(images, j)
    ensures r.BadParent? ==> FirstUnlinked(images, r.expected, r.got)
    ensures r.Fixed? ==> layers' == Pick(layers, Ends(images, 0)) && history' == Pick(history, Ends(images, 0))
  {
    layers', history' := layers, history;
    assert IsEnd(images, |images| - 1);
    var i := |images| - 2;
    while i >= 0
      invariant -1 <= i <= |images| - 2
      invariant layers' == CutFrom(layers, images, i + 1)
      invariant history' == CutFrom(history, images, i + 1)
      invariant forall j :: i < j < |images| - 1 ==> Linked(images, j)
    {
      if images[i].id == images[i + 1].id {
        layers' := RemoveAt(layers', i);
        history' := RemoveAt(history', i);
      } else if images[i].parent != images[i + 1].id {
        assert UnlinkedAt(images, i, images[i + 1].id, images[i].parent);
        return BadParent(images[i + 1].id, images[i].parent), layers', history';
      }
      i := i - 1;
    }
    CutIsPick(layers, images);
    CutIsPick(history, images);
    r := Fixed;
  }
}

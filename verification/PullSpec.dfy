/**
  The identity of a pulled image (`graph/pull_v2.go`): strong IDs computed from base to top,
  and the choice of the IDs under which the layers live in the graph.
 */
module PullSpec {
  import opened Options
  import opened ImageConfig
  import opened ImageGraph
  import opened Probing

  /** `contentAddressableDescriptor`. */
  datatype Descriptor = Descriptor(id: ID, parent: ID, strongID: ID, compatibilityID: ID, config: Fields, v1: string)

  // ---------- strong IDs ----------

  /** `newContentAddressableImage`; `parent` is the strong ID below, or empty. */
  function NewDescriptor(lib: Library, v1: string, layer: string, parent: ID): Option<Descriptor> {
    var c := MakeImageConfig(lib, v1, layer, parent);
    if c.None? || lib.decode(v1).None? then None
    else
      var s := lib.strongID(c.value);
      Some(Descriptor(s, "", s, lib.decode(v1).value.id, c.value, v1))
  }

  function StrongBelow(imgs: seq<Descriptor>): ID {
    if imgs == [] then "" else imgs[0].strongID
  }

  /** The descriptors of a manifest, top first. */
  function Infos(lib: Library, layers: seq<string>, history: seq<string>): (r: Option<seq<Descriptor>>)
    requires |layers| == |history|
    ensures r.Some? ==> |r.value| == |layers|
  {
    if layers == [] then Some([])
    else
      var below := Infos(lib, layers[1..], history[1..]);
      if below.None? then None
      else
        var d := NewDescriptor(lib, history[0], layers[0], StrongBelow(below.value));
        if d.None? then None else Some([d.value] + below.value)
  }

  /** The strong parent of position `i`: the strong ID below it, or empty for the base. */
  function StrongParent(imgs: seq<Descriptor>, i: nat): ID
    requires i < |imgs|
  {
    if i + 1 == |imgs| then "" else imgs[i + 1].strongID
  }

  /** Every descriptor was made from its manifest entry and the strong ID below it. */
  ghost predicate Hashed(lib: Library, layers: seq<string>, history: seq<string>, imgs: seq<Descriptor>) {
    && |imgs| == |layers| == |history|
    && forall i :: 0 <= i < |imgs| ==> Level(lib, layers, history, imgs, i)
  }

  predicate Level(lib: Library, layers: seq<string>, history: seq<string>, imgs: seq<Descriptor>, i: nat)
    requires |imgs| == |layers| == |history| && i < |imgs|
  {
    HashedAt(lib, layers[i], history[i], imgs[i], StrongParent(imgs, i))
  }

  predicate HashedAt(lib: Library, layer: string, v1: string, d: Descriptor, parent: ID) {
    && MakeImageConfig(lib, v1, layer, parent) == Some(d.config)
    && d.strongID == lib.strongID(d.config)
    && d.v1 == v1
  }

  /** Descriptors as they are before IDs are chosen. */
  ghost predicate AllStrong(imgs: seq<Descriptor>) {
    forall d :: d in imgs ==> d.id == d.strongID && d.parent == ""
  }

  /** Every entry decodes, and its descriptor remembers the v1 ID. */
  ghost predicate V1IDs(lib: Library, history: seq<string>, imgs: seq<Descriptor>) {
    && |imgs| == |history|
    && forall i :: 0 <= i < |imgs| ==> lib.decode(history[i]).Some? && imgs[i].compatibilityID == lib.decode(history[i]).value.id
  }

  lemma {:induction false} InfosHashed(lib: Library, layers: seq<string>, history: seq<string>)
    requires |layers| == |history| && Infos(lib, layers, history).Some?
    ensures Hashed(lib, layers, history, Infos(lib, layers, history).value)
    ensures AllStrong(Infos(lib, layers, history).value)
    ensures V1IDs(lib, history, Infos(lib, layers, history).value)
    decreases |layers|
  {
    if layers != [] {
      InfosHashed(lib, layers[1..], history[1..]);
      var below := Infos(lib, layers[1..], history[1..]).value;
      var imgs := Infos(lib, layers, history).value;
      forall i | 0 <= i < |imgs| ensures Level(lib, layers, history, imgs, i) {
        if i > 0 {
          assert Level(lib, layers[1..], history[1..], below, i - 1);
        }
      }
    }
  }

  /** A manifest has descriptors exactly when some list is hashed from it and all its entries decode. */
  lemma {:induction false} InfosIff(lib: Library, layers: seq<string>, history: seq<string>)
    requires |layers| == |history|
    ensures Infos(lib, layers, history).Some? <==>
            (exists ds :: Hashed(lib, layers, history, ds)) && forall v :: v in history ==> lib.decode(v).Some?
    decreases |layers|
  {
    if Infos(lib, layers, history).Some? {
      InfosHashed(lib, layers, history);
    }
    if ds :| Hashed(lib, layers, history, ds) && forall v :: v in history ==> lib.decode(v).Some? {
      HashedHasInfos(lib, layers, history, ds);
    }
  }

  lemma {:induction false} HashedHasInfos(lib: Library, layers: seq<string>, history: seq<string>, ds: seq<Descriptor>)
    requires Hashed(lib, layers, history, ds) && forall v :: v in history ==> lib.decode(v).Some?
    ensures Infos(lib, layers, history).Some? && StrongBelow(Infos(lib, layers, history).value) == StrongBelow(ds)
    decreases |layers|
  {
    if layers == [] {
      assert Hashed(lib, [], [], []);
    } else {
      SuffixHashed(lib, layers, history, ds, 1);
      HashedHasInfos(lib, layers[1..], history[1..], ds[1..]);
      assert Level(lib, layers, history, ds, 0);
      assert StrongParent(ds, 0) == StrongBelow(ds[1..]);
      assert history[0] in history;
    }
  }

  // ---------- the Merkle chain ----------

  /** Two manifests as far as their hashes see them at one level. */
  ghost predicate SameLevel(lib: Library, l: string, v: string, l': string, v': string) {
    l == l' && Core(lib, v) == Core(lib, v')
  }

  lemma LevelsAgree(lib: Library, l: string, v: string, d: Descriptor, p: ID, l': string, v': string, d': Descriptor, p': ID)
    requires Injective(lib) && HashedAt(lib, l, v, d, p) && HashedAt(lib, l', v', d', p')
    ensures d.strongID == d'.strongID <==>
            SameLevel(lib, l, v, l', v') && EffectiveParent(lib, v, p) == EffectiveParent(lib, v', p')
  {
    ConfigDetermines(lib, v, l, p, v', l', p');
  }

  lemma StrongIDNotEmpty(lib: Library, ls: seq<string>, hs: seq<string>, ds: seq<Descriptor>, i: nat)
    requires Sound(lib) && Hashed(lib, ls, hs, ds) && i < |ds|
    ensures ds[i].strongID != ""
  {
    assert Level(lib, ls, hs, ds, i);
  }

  /**
    Two manifests from position `i` down: the same layers and core fields as far as both go, and
    then either both end, with the same own parent if any, or the base of the shorter one brings,
    as its own `parent_id` field, the strong ID of the longer one's next layer.
   */
  ghost predicate SameChain(lib: Library, ls: seq<string>, hs: seq<string>, ds: seq<Descriptor>,
                            ls': seq<string>, hs': seq<string>, ds': seq<Descriptor>, i: nat)
    requires |ds| == |ls| == |hs| && |ds'| == |ls'| == |hs'| && i < |ds| && i < |ds'|
    decreases |ds| - i
  {
    && SameLevel(lib, ls[i], hs[i], ls'[i], hs'[i])
    && if i + 1 < |ds| && i + 1 < |ds'| then SameChain(lib, ls, hs, ds, ls', hs', ds', i + 1)
       else EffectiveParent(lib, hs[i], StrongParent(ds, i)) == EffectiveParent(lib, hs'[i], StrongParent(ds', i))
  }

  /** Strong IDs agree at a position exactly when the manifests agree from there down to the base. */
  lemma {:induction false} MerkleChain(lib: Library, ls: seq<string>, hs: seq<string>, ds: seq<Descriptor>,
                                       ls': seq<string>, hs': seq<string>, ds': seq<Descriptor>, i: nat)
    requires Sound(lib) && Injective(lib)
    requires Hashed(lib, ls, hs, ds) && Hashed(lib, ls', hs', ds') && i < |ds| && i < |ds'|
    ensures ds[i].strongID == ds'[i].strongID <==> SameChain(lib, ls, hs, ds, ls', hs', ds', i)
    decreases |ds| - i
  {
    assert Level(lib, ls, hs, ds, i) && Level(lib, ls', hs', ds', i);
    LevelsAgree(lib, ls[i], hs[i], ds[i], StrongParent(ds, i), ls'[i], hs'[i], ds'[i], StrongParent(ds', i));
    if i + 1 < |ds| && i + 1 < |ds'| {
      StrongIDNotEmpty(lib, ls, hs, ds, i + 1);
      StrongIDNotEmpty(lib, ls', hs', ds', i + 1);
      MerkleChain(lib, ls, hs, ds, ls', hs', ds', i + 1);
    }
  }

  /** The base entry brings no parent of its own. */
  predicate PlainBase(lib: Library, history: seq<string>)
    requires history != []
  {
    OwnParent(lib, history[|history| - 1]).None?
  }

  lemma {:induction false} PlainChains(lib: Library, ls: seq<string>, hs: seq<string>, ds: seq<Descriptor>,
                                       ls': seq<string>, hs': seq<string>, ds': seq<Descriptor>, i: nat)
    requires Sound(lib) && Hashed(lib, ls, hs, ds) && Hashed(lib, ls', hs', ds') && i < |ds| && i < |ds'|
    requires PlainBase(lib, hs) && PlainBase(lib, hs')
    ensures SameChain(lib, ls, hs, ds, ls', hs', ds', i) <==>
            |ds| == |ds'| && forall k :: i <= k < |ds| ==> SameLevel(lib, ls[k], hs[k], ls'[k], hs'[k])
    decreases |ds| - i
  {
    if i + 1 < |ds| {
      StrongIDNotEmpty(lib, ls, hs, ds, i + 1);
    }
    if i + 1 < |ds'| {
      StrongIDNotEmpty(lib, ls', hs', ds', i + 1);
    }
    if i + 1 < |ds| && i + 1 < |ds'| {
      PlainChains(lib, ls, hs, ds, ls', hs', ds', i + 1);
    }
  }

  /** Manifests whose bases bring no parent of their own have the same top strong ID exactly when they agree. */
  lemma TopDeterminesManifest(lib: Library, ls: seq<string>, hs: seq<string>, ds: seq<Descriptor>,
                              ls': seq<string>, hs': seq<string>, ds': seq<Descriptor>)
    requires Sound(lib) && Injective(lib)
    requires ds != [] && Hashed(lib, ls, hs, ds) && PlainBase(lib, hs)
    requires ds' != [] && Hashed(lib, ls', hs', ds') && PlainBase(lib, hs')
    ensures ds[0].strongID == ds'[0].strongID <==>
            ls == ls' && |hs| == |hs'| && forall k :: 0 <= k < |hs| ==> Core(lib, hs[k]) == Core(lib, hs'[k])
  {
    MerkleChain(lib, ls, hs, ds, ls', hs', ds', 0);
    PlainChains(lib, ls, hs, ds, ls', hs', ds', 0);
    if ds[0].strongID == ds'[0].strongID {
      forall k | 0 <= k < |ls| ensures ls[k] == ls'[k] && Core(lib, hs[k]) == Core(lib, hs'[k]) {
        assert SameLevel(lib, ls[k], hs[k], ls'[k], hs'[k]);
      }
    }
  }

  /** Strong IDs of one manifest are pairwise distinct when its base brings no parent of its own. */
  lemma {:induction false} StrongIDsDistinct(lib: Library, ls: seq<string>, hs: seq<string>, ds: seq<Descriptor>, i: nat, j: nat)
    requires Sound(lib) && Injective(lib) && Hashed(lib, ls, hs, ds)
    requires i < j < |ds| && PlainBase(lib, hs)
    ensures ds[i].strongID != ds[j].strongID
  {
    if ds[i].strongID == ds[j].strongID {
      SuffixHashed(lib, ls, hs, ds, i);
      SuffixHashed(lib, ls, hs, ds, j);
      var hi, hj := hs[i..], hs[j..];
      assert PlainBase(lib, hi) && PlainBase(lib, hj);
      TopDeterminesManifest(lib, ls[i..], hi, ds[i..], ls[j..], hj, ds[j..]);
    }
  }

  lemma SuffixHashed(lib: Library, ls: seq<string>, hs: seq<string>, ds: seq<Descriptor>, i: nat)
    requires Hashed(lib, ls, hs, ds) && i <= |ds|
    ensures Hashed(lib, ls[i..], hs[i..], ds[i..])
  {
    forall k | 0 <= k < |ds[i..]| ensures Level(lib, ls[i..], hs[i..], ds[i..], k) {
      assert Level(lib, ls, hs, ds, i + k);
    }
  }

  /** The condition on the base is needed: this family of pairs shares a top ID at different lengths. */
  lemma OwnParentCollides(lib: Library, layer: string, v: string, base: Descriptor, v': string)
    requires Sound(lib) && lib.fields(v).Some? && lib.validDigest(layer) && lib.validDigest(base.strongID)
    requires lib.fields(v') == Some(lib.fields(v).value["parent_id" := base.strongID])
    requires lib.decode(v).Some? && lib.decode(v').Some? && base.strongID != ""
    ensures NewDescriptor(lib, v, layer, base.strongID).Some? && NewDescriptor(lib, v', layer, "").Some?
    ensures NewDescriptor(lib, v, layer, base.strongID).value.strongID == NewDescriptor(lib, v', layer, "").value.strongID
  {
    var f := lib.fields(v).value;
    assert f["layer_id" := layer]["parent_id" := base.strongID] == f["parent_id" := base.strongID]["layer_id" := layer];
  }

  // ---------- validation ----------

  /** `validateImageInGraph`: the entry is the layer with this strong ID, on these parents. */
  predicate Validates(lib: Library, g: Graph, id: ID, strongID: ID, parent: ID, strongParent: ID) {
    && id in g
    && g[id].layer.Some?
    && g[id].parent == parent
    && g[id].v1.Some?
    && var c := MakeImageConfig(lib, g[id].v1.value, g[id].layer.value, strongParent);
       c.Some? && lib.strongID(c.value) == strongID
  }

  /** The ID chosen for the layer below position `i`, or empty for the base. */
  function ParentID(imgs: seq<Descriptor>, i: nat): ID
    requires i < |imgs|
  {
    if i + 1 == |imgs| then "" else imgs[i + 1].id
  }

  predicate ValidatesAt(lib: Library, g: Graph, id: ID, imgs: seq<Descriptor>, i: nat)
    requires i < |imgs|
  {
    Validates(lib, g, id, imgs[i].strongID, ParentID(imgs, i), StrongParent(imgs, i))
  }

  /** The IDs that are taken by something else than the layer at position `i`. */
  ghost function Rejected(lib: Library, g: Graph, imgs: seq<Descriptor>, i: nat): set<ID>
    requires i < |imgs|
  {
    set id | id in g && !ValidatesAt(lib, g, id, imgs, i)
  }

  // ---------- the choice of IDs ----------

  /** From an ID that is taken, hashing does not come back within as many tries as the graph has entries. */
  ghost predicate SpreadsAt(lib: Library, g: Graph, x: ID) {
    x in g ==> NoRepeat(lib.next, x, |g|)
  }

  ghost predicate Spreads(lib: Library, g: Graph, imgs: seq<Descriptor>) {
    forall d :: d in imgs ==> SpreadsAt(lib, g, d.id)
  }

  lemma ProbingStops(lib: Library, g: Graph, imgs: seq<Descriptor>, i: nat, x: ID)
    requires i < |imgs| && NoRepeat(lib.next, x, |g|)
    ensures Stops(lib.next, x, Rejected(lib, g, imgs, i), 0)
  {
    var r := Rejected(lib, g, imgs, i);
    assert r <= g.Keys;
    SubsetSize(r, g.Keys);
    NoRepeatStops(lib.next, x, r);
  }

  lemma SubsetSize(a: set<ID>, b: set<ID>)
    requires a <= b
    ensures |a| <= |b|
  {
    if a != {} {
      var x :| x in a;
      SubsetSize(a - {x}, b - {x});
    }
  }

  datatype Choice = Choice(imgs: seq<Descriptor>, reuse: bool)

  /** The loop of `attemptIDReuse`, base first: the IDs chosen and whether v1 IDs may still be reused. */
  ghost function Choose(lib: Library, g: Graph, imgs: seq<Descriptor>): (c: Choice)
    requires Spreads(lib, g, imgs)
    ensures |c.imgs| == |imgs|
  {
    if imgs == [] then Choice([], true)
    else
      var below := Choose(lib, g, imgs[1..]);
      ChooseTop(lib, g, imgs[0], below)
  }

  ghost function ChooseTop(lib: Library, g: Graph, d: Descriptor, below: Choice): (c: Choice)
    requires SpreadsAt(lib, g, d.id)
    ensures |c.imgs| == 1 + |below.imgs|
  {
    var cur := [d] + below.imgs;
    if d.id in g then
      if ValidatesAt(lib, g, d.id, cur, 0) then Choice(cur, below.reuse)
      else
        ProbingStops(lib, g, cur, 0, d.id);
        var r := Rejected(lib, g, cur, 0);
        Choice([d.(id := Probe(lib.next, d.id, FirstFree(lib.next, d.id, r, 0)))] + below.imgs, false)
    else if below.reuse && ValidatesAt(lib, g, d.compatibilityID, cur, 0) then
      Choice([d.(id := d.compatibilityID)] + below.imgs, true)
    else Choice(cur, false)
  }

  function WithParents(imgs: seq<Descriptor>): (r: seq<Descriptor>)
    ensures |r| == |imgs|
    ensures forall i {:trigger r[i]} :: 0 <= i < |imgs| ==> r[i] == imgs[i].(parent := ParentID(imgs, i))
  {
    seq(|imgs|, i requires 0 <= i < |imgs| => imgs[i].(parent := ParentID(imgs, i)))
  }

  /** The layers of a manifest as they are to be registered in a graph, top first. */
  ghost function Chosen(lib: Library, g: Graph, layers: seq<string>, history: seq<string>): (r: seq<Descriptor>)
    requires |layers| == |history| && Infos(lib, layers, history).Some?
    requires Spreads(lib, g, Infos(lib, layers, history).value)
    ensures |r| == |layers|
  {
    WithParents(Choose(lib, g, Infos(lib, layers, history).value).imgs)
  }

  /** Two lists of descriptors that differ at most in the chosen IDs and parents. */
  ghost predicate SameButIDs(a: seq<Descriptor>, b: seq<Descriptor>) {
    && |a| == |b|
    && forall i :: 0 <= i < |a| ==> a[i].(id := b[i].id, parent := b[i].parent) == b[i]
  }

  /** Every chosen ID is free, or names an entry that validates for its position. */
  ghost predicate FreeOrValid(lib: Library, g: Graph, imgs: seq<Descriptor>) {
    forall i :: 0 <= i < |imgs| ==> FreeOrValidAt(lib, g, imgs, i)
  }

  predicate FreeOrValidAt(lib: Library, g: Graph, imgs: seq<Descriptor>, i: nat)
    requires i < |imgs|
  {
    imgs[i].id !in g || ValidatesAt(lib, g, imgs[i].id, imgs, i)
  }

  lemma ConsFreeOrValid(lib: Library, g: Graph, d: Descriptor, below: seq<Descriptor>)
    requires FreeOrValidAt(lib, g, [d] + below, 0) && FreeOrValid(lib, g, below)
    ensures FreeOrValid(lib, g, [d] + below)
  {
    forall i | 0 < i <= |below| ensures FreeOrValidAt(lib, g, [d] + below, i) {
      assert FreeOrValidAt(lib, g, below, i - 1);
    }
  }

  lemma ConsSameButIDs(d: Descriptor, a: seq<Descriptor>, x: ID, b: seq<Descriptor>)
    requires SameButIDs(a, b)
    ensures SameButIDs([d] + a, [d.(id := x)] + b)
  {
  }

  lemma {:induction false} ChoiceIsFreeOrValid(lib: Library, g: Graph, imgs: seq<Descriptor>)
    requires Spreads(lib, g, imgs)
    ensures SameButIDs(imgs, Choose(lib, g, imgs).imgs)
    ensures FreeOrValid(lib, g, Choose(lib, g, imgs).imgs)
  {
    if imgs != [] {
      ChoiceIsFreeOrValid(lib, g, imgs[1..]);
      var below := Choose(lib, g, imgs[1..]);
      var x := ChooseTop(lib, g, imgs[0], below).imgs[0].id;
      assert Choose(lib, g, imgs).imgs == [imgs[0].(id := x)] + below.imgs;
      TopIsFreeOrValid(lib, g, imgs[0], below);
      ConsFreeOrValid(lib, g, imgs[0].(id := x), below.imgs);
      assert imgs == [imgs[0]] + imgs[1..];
      ConsSameButIDs(imgs[0], imgs[1..], x, below.imgs);
    }
  }

  lemma TopIsFreeOrValid(lib: Library, g: Graph, d: Descriptor, below: Choice)
    requires SpreadsAt(lib, g, d.id)
    ensures FreeOrValidAt(lib, g, ChooseTop(lib, g, d, below).imgs, 0)
  {
  }
}

/**
  Layers held by ongoing pulls and builds (`retainedLayers` in `graph/graph.go`), and a build's use
  of them (`builder/internals.go`, `builder/job.go`). The source keeps, for every layer, the set of
  sessions that hold it; the specification is a set of (session, layer) pairs.
 */
module RetainedSpec {
  import opened Options

  type Session = string
  type Layer = string

  type Holders = map<Layer, set<Session>>

  datatype Pair = Pair(session: Session, layer: Layer)

  /** The pairs that the nested maps stand for. */
  ghost function Pairs(h: Holders): set<Pair> {
    set l, s | l in h && s in h[l] :: Pair(s, l)
  }

  /** No empty set is kept. */
  ghost predicate Tidy(h: Holders) {
    forall l :: l in h ==> h[l] != {}
  }

  function PairsOf(s: Session, layers: seq<Layer>): set<Pair> {
    set l | l in layers :: Pair(s, l)
  }

  function Hold(h: Holders, s: Session, l: Layer): Holders {
    h[l := (if l in h then h[l] else {}) + {s}]
  }

  function Drop(h: Holders, s: Session, l: Layer): Holders {
    if l !in h then h
    else if h[l] - {s} == {} then h - {l}
    else h[l := h[l] - {s}]
  }

  lemma HoldPairs(h: Holders, s: Session, l: Layer)
    ensures Pairs(Hold(h, s, l)) == Pairs(h) + {Pair(s, l)}
    ensures Tidy(h) ==> Tidy(Hold(h, s, l))
  {
  }

  lemma DropPairs(h: Holders, s: Session, l: Layer)
    ensures Pairs(Drop(h, s, l)) == Pairs(h) - {Pair(s, l)}
    ensures Tidy(h) ==> Tidy(Drop(h, s, l))
  {
    var h' := Drop(h, s, l);
    forall p ensures p in Pairs(h') <==> p in Pairs(h) && p != Pair(s, l) {
      assert p in Pairs(h') <==> p.layer in h' && p.session in h'[p.layer];
      assert p in Pairs(h) <==> p.layer in h && p.session in h[p.layer];
      if p.layer == l && l in h && p.session in h[l] && p.session != s {
        assert p.session in h[l] - {s};
      }
    }
  }

  /** Holding a list of layers, one after the other. */
  function HoldAll(h: Holders, s: Session, layers: seq<Layer>): Holders {
    if layers == [] then h else Hold(HoldAll(h, s, layers[..|layers| - 1]), s, layers[|layers| - 1])
  }

  function DropAll(h: Holders, s: Session, layers: seq<Layer>): Holders {
    if layers == [] then h else Drop(DropAll(h, s, layers[..|layers| - 1]), s, layers[|layers| - 1])
  }

  lemma PairsSnoc(s: Session, layers: seq<Layer>)
    requires layers != []
    ensures PairsOf(s, layers) == PairsOf(s, layers[..|layers| - 1]) + {Pair(s, layers[|layers| - 1])}
  {
    assert layers == layers[..|layers| - 1] + [layers[|layers| - 1]];
  }

  lemma {:induction false} HoldAllPairs(h: Holders, s: Session, layers: seq<Layer>)
    ensures Pairs(HoldAll(h, s, layers)) == Pairs(h) + PairsOf(s, layers)
    ensures Tidy(h) ==> Tidy(HoldAll(h, s, layers))
  {
    if layers != [] {
      var init := layers[..|layers| - 1];
      HoldAllPairs(h, s, init);
      HoldPairs(HoldAll(h, s, init), s, layers[|layers| - 1]);
      PairsSnoc(s, layers);
    }
  }

  lemma {:induction false} DropAllPairs(h: Holders, s: Session, layers: seq<Layer>)
    ensures Pairs(DropAll(h, s, layers)) == Pairs(h) - PairsOf(s, layers)
    ensures Tidy(h) ==> Tidy(DropAll(h, s, layers))
  {
    if layers != [] {
      var init := layers[..|layers| - 1];
      DropAllPairs(h, s, init);
      DropPairs(DropAll(h, s, init), s, layers[|layers| - 1]);
      PairsSnoc(s, layers);
    }
  }

  /** A layer has an entry exactly when somebody holds it. */
  lemma HeldIff(h: Holders, l: Layer)
    requires Tidy(h)
    ensures l in h <==> exists s :: Pair(s, l) in Pairs(h)
  {
    if l in h {
      var s :| s in h[l];
      assert Pair(s, l) in Pairs(h);
    }
  }

  // ---------- sessions ----------

  /** The pairs held, and the layers that each open session has asked for, in order. */
  datatype System = System(held: set<Pair>, active: map<Session, seq<Layer>>)

  datatype Action =
    | Open(s: Session)              // a build or pull starts under a fresh random ID
    | Retain(s: Session, l: Layer)  // it retains a layer and notes it down
    | Close(s: Session)             // the deferred Release of everything noted down

  predicate Enabled(t: System, a: Action) {
    match a
    case Open(s) => s !in t.active
    case Retain(s, _) => s in t.active
    case Close(s) => s in t.active
  }

  function Apply(t: System, a: Action): System
    requires Enabled(t, a)
  {
    match a
    case Open(s) => t.(active := t.active[s := []])
    case Retain(s, l) => System(t.held + {Pair(s, l)}, t.active[s := t.active[s] + [l]])
    case Close(s) => System(t.held - PairsOf(s, t.active[s]), t.active - {s})
  }

  function Exec(actions: seq<Action>): Option<System> {
    if actions == [] then Some(System({}, map[]))
    else
      var t, last := Exec(actions[..|actions| - 1]), actions[|actions| - 1];
      if t.Some? && Enabled(t.value, last) then Some(Apply(t.value, last)) else None
  }

  function LayersOf(t: System, s: Session): seq<Layer> {
    if s in t.active then t.active[s] else []
  }

  /** In every interleaving each session holds exactly what it has noted down, and a closed one nothing. */
  lemma {:induction false} HeldIsActive(actions: seq<Action>, t: System, s: Session, l: Layer)
    requires Exec(actions) == Some(t)
    ensures Pair(s, l) in t.held <==> l in LayersOf(t, s)
    decreases |actions|
  {
    if actions != [] {
      var u, last := Exec(actions[..|actions| - 1]).value, actions[|actions| - 1];
      HeldIsActive(actions[..|actions| - 1], u, s, l);
    }
  }

  /** Closing a session takes away all its pairs and nobody else's. */
  lemma CloseReleasesOwn(actions: seq<Action>, t: System, s: Session, p: Pair)
    requires Exec(actions) == Some(t) && s in t.active
    ensures p in Apply(t, Close(s)).held <==> p in t.held && p.session != s
  {
    HeldIsActive(actions, t, p.session, p.layer);
  }

  // ---------- nesting ----------

  predicate HeldBy(h: Holders, s: Session, l: Layer) {
    l in h && s in h[l]
  }

  /** The table after one session retains an outer list, then an inner one, and releases the inner one. */
  function Nested(h: Holders, s: Session, outer: seq<Layer>, inner: seq<Layer>): Holders {
    DropAll(HoldAll(HoldAll(h, s, outer), s, inner), s, inner)
  }

  /** Holding is not counted: the outer list is still held exactly when the two share no layer. */
  lemma NestedReleaseIff(h: Holders, s: Session, outer: seq<Layer>, inner: seq<Layer>)
    ensures (forall l :: l in outer ==> HeldBy(Nested(h, s, outer, inner), s, l)) <==> forall l :: l in outer ==> l !in inner
  {
    var a := HoldAll(h, s, outer);
    HoldAllPairs(h, s, outer);
    HoldAllPairs(a, s, inner);
    DropAllPairs(HoldAll(a, s, inner), s, inner);
    var after := Nested(h, s, outer, inner);
    forall l ensures HeldBy(after, s, l) <==> Pair(s, l) in Pairs(after) {}
    if l :| l in outer && l in inner {
      assert Pair(s, l) !in Pairs(after);
    }
  }

  /** Two images of one pull with a common layer: when the first is done, nobody holds the layer. */
  lemma NestedReleaseExample()
    ensures Nested(map[], "pull", ["base"], ["base"]) == map[]
  {
    var one := ["base"];
    assert one[..0] == [];
    assert {} + {"pull"} == {"pull"} && {"pull"} + {"pull"} == {"pull"} && {"pull"} - {"pull"} == {};
    var h := Hold(map[], "pull", "base");
    assert h == map["base" := {"pull"}] && Hold(h, "pull", "base") == h;
    assert HoldAll(map[], "pull", []) == map[] && HoldAll(map[], "pull", one) == h;
    assert HoldAll(h, "pull", []) == h && HoldAll(h, "pull", one) == h;
    assert DropAll(h, "pull", []) == h && DropAll(h, "pull", one) == Drop(h, "pull", "base") == map[];
  }
}

module Retained {
  import opened RetainedSpec

  class RetainedLayers {
    var layerHolders: Holders

    constructor ()
      ensures Pairs(layerHolders) == {} && Tidy(layerHolders)
    {
      layerHolders := map[];
    }

    method Add(sessionID: Session, layerIDs: seq<Layer>)
      modifies this
      ensures layerHolders == HoldAll(old(layerHolders), sessionID, layerIDs)
      ensures Pairs(layerHolders) == old(Pairs(layerHolders)) + PairsOf(sessionID, layerIDs)
      ensures old(Tidy(layerHolders)) ==> Tidy(layerHolders)
    {
      for i := 0 to |layerIDs|
        invariant layerHolders == HoldAll(old(layerHolders), sessionID, layerIDs[..i])
      {
        var layerID := layerIDs[i];
        assert layerIDs[..i + 1][..i] == layerIDs[..i];
        if layerID !in layerHolders {
          layerHolders := layerHolders[layerID := {}];
        }
        layerHolders := layerHolders[layerID := layerHolders[layerID] + {sessionID}];
      }
      assert layerIDs[..|layerIDs|] == layerIDs;
      HoldAllPairs(old(layerHolders), sessionID, layerIDs);
    }

    method Delete(sessionID: Session, layerIDs: seq<Layer>)
      modifies this
      ensures layerHolders == DropAll(old(layerHolders), sessionID, layerIDs)
      ensures Pairs(layerHolders) == old(Pairs(layerHolders)) - PairsOf(sessionID, layerIDs)
      ensures old(Tidy(layerHolders)) ==> Tidy(layerHolders)
    {
      for i := 0 to |layerIDs|
        invariant layerHolders == DropAll(old(layerHolders), sessionID, layerIDs[..i])
      {
        var layerID := layerIDs[i];
        assert layerIDs[..i + 1][..i] == layerIDs[..i];
        if layerID !in layerHolders {
          continue;
        }
        var holders := layerHolders[layerID] - {sessionID};
        if |holders| == 0 {
          layerHolders := layerHolders - {layerID};
        } else {
          layerHolders := layerHolders[layerID := holders];
        }
      }
      assert layerIDs[..|layerIDs|] == layerIDs;
      DropAllPairs(old(layerHolders), sessionID, layerIDs);
    }

    method Exists(layerID: Layer) returns (r: bool)
      requires Tidy(layerHolders)
      ensures r <==> exists s :: Pair(s, layerID) in Pairs(layerHolders)
    {
      HeldIff(layerHolders, layerID);
      r := layerID in layerHolders;
    }
  }

  /** The answer of the image cache. */
  datatype Cache = CacheError | Miss | Hit(id: Layer)

  /** A build's session: `builder`, as far as it retains images. */
  class Builder {
    const id: Session
    const retained: RetainedLayers
    const utilizeCache: bool
    var cacheBusted: bool
    var activeImages: seq<Layer>
    var image: Layer

    /** The build holds exactly its active images. */
    ghost predicate Valid()
      reads this, retained
    {
      && Tidy(retained.layerHolders)
      && (forall l :: Pair(id, l) in Pairs(retained.layerHolders) <==> l in activeImages)
    }

    /** Nothing held by other sessions has changed. */
    twostate predicate OthersKept()
      reads this, retained
    {
      forall p: Pair :: p.session != id ==> (p in Pairs(retained.layerHolders) <==> p in old(Pairs(retained.layerHolders)))
    }

    constructor (id: Session, retained: RetainedLayers, utilizeCache: bool)
      requires Tidy(retained.layerHolders) && forall l :: Pair(id, l) !in Pairs(retained.layerHolders)
      ensures Valid() && this.id == id && this.retained == retained && this.utilizeCache == utilizeCache
      ensures activeImages == [] && !cacheBusted
    {
      this.id, this.retained, this.utilizeCache := id, retained, utilizeCache;
      cacheBusted, activeImages, image := false, [], "";
    }

    method Retain(imageID: Layer)
      requires Valid()
      modifies this`activeImages, retained
      ensures Valid() && OthersKept()
      ensures activeImages == old(activeImages) + [imageID]
    {
      retained.Add(id, [imageID]);
      activeImages := activeImages + [imageID];
    }

    /** The end of `commit`: the new image becomes the current one. */
    method Committed(imageID: Layer)
      requires Valid()
      modifies this`activeImages, this`image, retained
      ensures Valid() && OthersKept()
      ensures activeImages == old(activeImages) + [imageID] && image == imageID
    {
      Retain(imageID);
      image := imageID;
    }

    /** `probeCache`, given what the cache would answer; after the first miss it is never asked again. */
    method ProbeCache(answer: Cache) returns (hit: bool, failed: bool)
      requires Valid()
      modifies this`cacheBusted, this`activeImages, this`image, retained
      ensures Valid() && OthersKept()
      ensures hit <==> utilizeCache && !old(cacheBusted) && answer.Hit?
      ensures failed <==> utilizeCache && !old(cacheBusted) && answer.CacheError?
      ensures cacheBusted <==> old(cacheBusted) || (utilizeCache && answer.Miss?)
      ensures if hit then image == answer.id && activeImages == old(activeImages) + [answer.id]
              else image == old(image) && activeImages == old(activeImages)
    {
      if !utilizeCache || cacheBusted {
        return false, false;
      }
      match answer {
        case CacheError => return false, true;
        case Miss =>
          cacheBusted := true;
          return false, false;
        case Hit(imageID) =>
          image := imageID;
          Retain(imageID);
          return true, false;
      }
    }

    /** The deferred release at the end of `Build`. */
    method Release()
      requires Valid()
      modifies retained
      ensures Tidy(retained.layerHolders) && OthersKept()
      ensures forall l :: Pair(id, l) !in Pairs(retained.layerHolders)
    {
      retained.Delete(id, activeImages);
    }
  }
}

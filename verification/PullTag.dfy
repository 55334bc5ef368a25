/** The registration loop of a pull and the tag store it writes to (`graph/pull_v2.go`, `graph/tags.go`). */
module TagStore {
  import opened Options
  import opened References
  import opened ImageConfig
  import opened ImageGraph
  import opened ManifestSpec
  import opened Manifest
  import opened PullSpec
  import opened PullGraph
  import opened PullDistinct
  import opened Extraction
  import opened Pull
  import opened RetainedSpec
  import opened Retained

  datatype PullResult = BadManifest | BadConfig | BadLayer | Interrupted | TagConflict | Pulled(updated: bool)

  function SetTag(repos: Repositories, repo: string, tag: string, id: ID): Repositories {
    repos[repo := (if repo in repos then repos[repo] else map[])[tag := id]]
  }

  /** The reference now names the image, and every other reference is as it was. */
  ghost predicate Retagged(repos: Repositories, repos': Repositories, ref: Ref, id: ID) {
    forall r, x :: Points(repos', r, x) <==> if r == ref then x == id else Points(repos, r, x)
  }

  lemma SetTagRetags(repos: Repositories, repo: string, tag: string, id: ID)
    ensures Retagged(repos, SetTag(repos, repo, tag, id), Ref(repo, tag), id)
  {
  }

  /** A digest reference that already names another image is not moved. */
  predicate Conflicts(repos: Repositories, repo: string, tag: string, id: ID) {
    IsDigest(tag) && repo in repos && tag in repos[repo] && repos[repo][tag] != id
  }

  /** The reference is a digest and names something else. */
  ghost predicate Taken(repos: Repositories, ref: Ref, id: ID) {
    ':' in ref.tag && exists x :: x != id && Points(repos, ref, x)
  }

  lemma ConflictsIff(repos: Repositories, repo: string, tag: string, id: ID)
    ensures Conflicts(repos, repo, tag, id) <==> Taken(repos, Ref(repo, tag), id)
  {
    if Conflicts(repos, repo, tag, id) {
      assert Points(repos, Ref(repo, tag), repos[repo][tag]);
    }
  }

  ghost predicate NoFaults(faults: nat -> Fault) {
    forall i: nat :: faults(i) == NoFault
  }

  /** Which layers are to be downloaded. */
  function Missing(g: Graph, imgs: seq<Descriptor>): (r: seq<bool>)
    ensures |r| == |imgs| && forall i :: 0 <= i < |imgs| ==> r[i] == (imgs[i].id !in g)
  {
    seq(|imgs|, i requires 0 <= i < |imgs| => imgs[i].id !in g)
  }

  class TagStore {
    var graph: Graph
    var repositories: Repositories
    const retained: RetainedLayers

    constructor (graph: Graph, repositories: Repositories, retained: RetainedLayers)
      ensures this.graph == graph && this.repositories == repositories && this.retained == retained
    {
      this.graph, this.repositories, this.retained := graph, repositories, retained;
    }

    /** The first loop of `pullV2Tag`: hold every layer for the session, and validate what is present. */
    method CheckLayers(lib: Library, imgs: seq<Descriptor>, session: Session) returns (ok: bool, layerIDs: seq<ID>)
      requires Tidy(retained.layerHolders)
      modifies retained
      ensures ok <==> FreeOrValid(lib, graph, imgs)
      ensures HeldMore(old(retained.layerHolders), retained.layerHolders, session, layerIDs)
      ensures BaseFirst(imgs, layerIDs) && (ok ==> |layerIDs| == |imgs|)
    {
      layerIDs := [];
      var i := |imgs| - 1;
      while i >= 0
        invariant -1 <= i < |imgs|
        invariant forall j :: i < j < |imgs| ==> FreeOrValidAt(lib, graph, imgs, j)
        invariant BaseFirst(imgs, layerIDs) && |layerIDs| == |imgs| - 1 - i
        invariant HeldMore(old(retained.layerHolders), retained.layerHolders, session, layerIDs)
      {
        ghost var h := retained.layerHolders;
        retained.Add(session, [imgs[i].id]);
        HeldMoreStep(old(retained.layerHolders), h, retained.layerHolders, session, layerIDs, imgs[i].id);
        layerIDs := layerIDs + [imgs[i].id];
        if !FreeOrValidAt(lib, graph, imgs, i) {
          return false, layerIDs;
        }
        i := i - 1;
      }
      ok := true;
    }

    /** The extraction of one missing layer: `register`, `setLayerDigest`, `setV1CompatibilityConfig`. */
    method ExtractLayer(lib: Library, imgs: seq<Descriptor>, layer: string, i: nat, fault: Fault) returns (ok: bool)
      requires i < |imgs|
      modifies this`graph
      ensures Extracted(lib, old(graph), graph, imgs, i)
      ensures ok ==> Completed(lib, old(graph), graph, imgs, i, layer)
      ensures ok <==> fault != DownloadFails && fault != DigestFails && fault != ConfigFails
                      && if imgs[i].id in old(graph) then ValidatesAt(lib, old(graph), imgs[i].id, imgs, i)
                         else fault != RegisterFails
    {
      var d := imgs[i];
      if fault == DownloadFails {
        return false;
      }
      if d.id in graph && !ValidatesAt(lib, graph, d.id, imgs, i) {
        return false;
      }
      if d.id !in graph {
        if fault == RegisterFails {
          return false;
        }
        graph := graph[d.id := Registered(lib, d)];
      }
      if fault == DigestFails {
        return false;
      }
      graph := graph[d.id := graph[d.id].(layer := Some(layer))];
      if fault == ConfigFails {
        return false;
      }
      graph := graph[d.id := graph[d.id].(v1 := Some(d.v1))];
      ok := true;
    }

    /** The same for a layer that was missing when the extraction began, in graph `g0`. */
    method ExtractMissing(lib: Library, imgs: seq<Descriptor>, layers: seq<string>, ghost history: seq<string>, i: nat,
                          fault: Fault, ghost g0: Graph) returns (ok: bool)
      requires i < |imgs| && Hashed(lib, layers, history, imgs) && LinksUp(lib, imgs)
      requires imgs[i].id !in g0 && Progress(lib, g0, graph, imgs, i + 1)
      modifies this`graph
      ensures Grown(lib, g0, graph, imgs)
      ensures ok ==> Progress(lib, g0, graph, imgs, i)
      ensures Distinct(imgs) && Untouched(g0, old(graph), imgs, i + 1) ==>
                Untouched(g0, graph, imgs, i) && (fault == NoFault ==> ok)
    {
      ghost var g := graph;
      ok := ExtractLayer(lib, imgs, layers[i], i, fault);
      ExtractGrows(lib, g0, g, graph, imgs, i);
      if ok {
        ExtractProgress(lib, g0, g, graph, layers, history, imgs, i);
      }
    }

    /** The extraction loop of `pullV2Tag`, base first. */
    method ExtractLayers(lib: Library, imgs: seq<Descriptor>, layers: seq<string>, ghost history: seq<string>,
                         missing: seq<bool>, faults: nat -> Fault) returns (ok: bool, updated: bool)
      requires imgs != [] && missing == Missing(graph, imgs) && Hashed(lib, layers, history, imgs) && LinksUp(lib, imgs)
      requires FreeOrValid(lib, graph, imgs)
      modifies this`graph
      ensures Grown(lib, old(graph), graph, imgs)
      ensures ok ==> Progress(lib, old(graph), graph, imgs, 0)
      ensures ok ==> (updated <==> graph != old(graph))
      ensures NoFaults(faults) && Distinct(imgs) ==> ok
    {
      updated := false;
      var i := |imgs| - 1;
      while i >= 0
        invariant -1 <= i < |imgs|
        invariant Progress(lib, old(graph), graph, imgs, i + 1)
        invariant updated ==> exists j :: i < j < |imgs| && imgs[j].id !in old(graph)
        invariant !updated ==> graph == old(graph)
        invariant Distinct(imgs) ==> Untouched(old(graph), graph, imgs, i + 1)
      {
        if missing[i] {
          ok := ExtractMissing(lib, imgs, layers, history, i, faults(i), old(graph));
          if !ok {
            return false, updated;
          }
          updated := true;
        } else {
          SkipProgress(lib, old(graph), graph, imgs, i);
        }
        i := i - 1;
      }
      ok := true;
    }

    /** `SetLoad` with force for a tag, `SetDigest` for a digest reference; the image is present. */
    method SetReference(repo: string, tag: string, id: ID) returns (ok: bool)
      modifies this`repositories
      ensures ok <==> !Conflicts(old(repositories), repo, tag, id)
      ensures repositories == if ok then SetTag(old(repositories), repo, tag, id) else old(repositories)
      ensures ok <==> !Taken(old(repositories), Ref(repo, tag), id)
      ensures ok <==> Points(repositories, Ref(repo, tag), id)
      ensures ok ==> Retagged(old(repositories), repositories, Ref(repo, tag), id)
      ensures ':' in tag ==> forall x :: Points(old(repositories), Ref(repo, tag), x) ==> Points(repositories, Ref(repo, tag), x)
    {
      SetTagRetags(repositories, repo, tag, id);
      ConflictsIff(repositories, repo, tag, id);
      if Conflicts(repositories, repo, tag, id) {
        return false;
      }
      repositories := SetTag(repositories, repo, tag, id);
      ok := true;
    }

    /** The first half of `pullV2Tag`, after the manifest has been verified: fix it, hash it, choose the IDs. */
    method Prepare(lib: Library, m: Manifest, migrationFails: bool) returns (r: PullResult, imgs: seq<Descriptor>)
      requires Sound(lib) && "" !in graph
      requires |m.fsLayers| == |m.history| > 0 && ManifestSpreads(lib, graph, m.fsLayers, m.history)
      modifies m
      ensures imgs == [] <==> r.BadManifest? || r.BadConfig?
      ensures r.BadManifest? <==> !Acceptable(lib, old(m.history))
      ensures imgs != [] <==> Describable(lib, old(m.fsLayers), old(m.history))
      ensures imgs != [] ==> m.history != [] && Hashed(lib, m.fsLayers, m.history, imgs) && LinksUp(lib, imgs)
      ensures imgs != [] && !migrationFails ==> FreeOrValid(lib, graph, imgs)
      ensures imgs != [] && CollisionFree(lib) && PlainBase(lib, m.history) ==> Distinct(imgs)
      ensures imgs != [] ==> ReadFrom(lib, graph, old(m.fsLayers), old(m.history), m.fsLayers, m.history, migrationFails, imgs)
    {
      imgs := [];
      var fixed := FixManifestLayers(lib, m);
      if !fixed.Fixed? {
        return BadManifest, [];
      }
      FixIdempotent(lib, old(m.history));
      var ok, descriptors := GetImageInfos(lib, graph, m.fsLayers, m.history, migrationFails);
      if !ok {
        return BadConfig, [];
      }
      DescriptorsReady(lib, graph, m.fsLayers, m.history, migrationFails, descriptors[..]);
      return Pulled(false), descriptors[..];
    }

    /** The second half: check, extract, tag, while the layers are held. */
    method InstallHeld(lib: Library, imgs: seq<Descriptor>, layers: seq<string>, ghost history: seq<string>,
                       repo: string, tag: string, session: Session, faults: nat -> Fault)
      returns (r: PullResult, layerIDs: seq<ID>)
      requires imgs != [] && Hashed(lib, layers, history, imgs) && LinksUp(lib, imgs) && Tidy(retained.layerHolders)
      modifies this, retained
      ensures Installed(lib, old(graph), old(repositories), graph, repositories, imgs, repo, tag, faults, r)
      ensures HeldMore(old(retained.layerHolders), retained.layerHolders, session, layerIDs)
      ensures BaseFirst(imgs, layerIDs) && (!r.BadLayer? ==> |layerIDs| == |imgs|)
    {
      var ok;
      ok, layerIDs := CheckLayers(lib, imgs, session);
      if !ok {
        return BadLayer, layerIDs;
      }
      var updated;
      ok, updated := ExtractLayers(lib, imgs, layers, history, Missing(graph, imgs), faults);
      if !ok {
        return Interrupted, layerIDs;
      }
      if !updated {
        updated := repo !in repositories || tag !in repositories[repo];
      }
      ok := SetReference(repo, tag, imgs[0].id);
      if !ok {
        return TagConflict, layerIDs;
      }
      r := Pulled(updated);
    }

    /** The same with the deferred release. */
    method Install(lib: Library, imgs: seq<Descriptor>, layers: seq<string>, ghost history: seq<string>,
                   repo: string, tag: string, session: Session, faults: nat -> Fault) returns (r: PullResult)
      requires imgs != [] && Hashed(lib, layers, history, imgs) && LinksUp(lib, imgs) && Tidy(retained.layerHolders)
      modifies this, retained
      ensures Installed(lib, old(graph), old(repositories), graph, repositories, imgs, repo, tag, faults, r)
      ensures HeldLess(old(retained.layerHolders), retained.layerHolders, session, IDs(imgs))
    {
      var layerIDs;
      r, layerIDs := InstallHeld(lib, imgs, layers, history, repo, tag, session, faults);
      retained.Delete(session, layerIDs);
      forall p | p in PairsOf(session, layerIDs) ensures p.layer in IDs(imgs) {
        var t :| 0 <= t < |layerIDs| && layerIDs[t] == p.layer;
        assert imgs[|imgs| - 1 - t].id in IDs(imgs);
      }
    }

    /**
      `pullV2Tag`. Whatever fails, the graph only grows, and is closed exactly when a base that was
      added has the parent it names; a pull that succeeds leaves the tag on an image whose whole
      chain is present and, on a base that sits, validates; nothing stays held for the session.
     */
    method PullTag(lib: Library, m: Manifest, repo: string, tag: string, session: Session, migrationFails: bool,
                   faults: nat -> Fault) returns (r: PullResult, ghost imgs: seq<Descriptor>)
      requires Sound(lib) && "" !in graph && Tidy(retained.layerHolders)
      requires |m.fsLayers| == |m.history| > 0 && ManifestSpreads(lib, graph, m.fsLayers, m.history)
      modifies this, m, retained
      ensures r.BadManifest? <==> !Acceptable(lib, old(m.history))
      ensures r.BadManifest? || r.BadConfig? <==> !Describable(lib, old(m.fsLayers), old(m.history))
      ensures r.BadManifest? || r.BadConfig? ==>
                imgs == [] && graph == old(graph) && repositories == old(repositories)
      ensures !r.BadManifest? && !r.BadConfig? ==>
                && ReadFrom(lib, old(graph), old(m.fsLayers), old(m.history), m.fsLayers, m.history, migrationFails, imgs)
                && imgs != [] && Hashed(lib, m.fsLayers, m.history, imgs)
                && Installed(lib, old(graph), old(repositories), graph, repositories, imgs, repo, tag, faults, r)
      ensures r.BadLayer? ==> migrationFails
      ensures r.Interrupted? && NoFaults(faults) ==> !(CollisionFree(lib) && PlainBase(lib, m.history))
      ensures r.Pulled? ==>
                && repo in repositories && tag in repositories[repo] && repositories[repo][tag] == imgs[0].id
                && Retagged(old(repositories), repositories, Ref(repo, tag), imgs[0].id)
      ensures !r.Pulled? ==> repositories == old(repositories)
      ensures r.TagConflict? ==> Taken(old(repositories), Ref(repo, tag), imgs[0].id)
      ensures ':' in tag ==> forall x :: Points(old(repositories), Ref(repo, tag), x) ==> Points(repositories, Ref(repo, tag), x)
      ensures "" !in graph && HeldLess(old(retained.layerHolders), retained.layerHolders, session, IDs(imgs))
    {
      var descriptors;
      r, descriptors := Prepare(lib, m, migrationFails);
      imgs := descriptors;
      if descriptors != [] {
        SetTagRetags(repositories, repo, tag, imgs[0].id);
        ConflictsIff(repositories, repo, tag, imgs[0].id);
        r := Install(lib, descriptors, m.fsLayers, m.history, repo, tag, session, faults);
      }
    }
  }

  /** What the second half of a pull leaves behind, by its result. */
  ghost predicate Installed(lib: Library, g0: Graph, repos0: Repositories, g: Graph, repos: Repositories,
                            imgs: seq<Descriptor>, repo: string, tag: string, faults: nat -> Fault, r: PullResult)
    requires imgs != []
  {
    && !r.BadManifest? && !r.BadConfig?
    && Grown(lib, g0, g, imgs) && ("" !in g0 ==> "" !in g)
    && (r.BadLayer? <==> !FreeOrValid(lib, g0, imgs))
    && (r.BadLayer? ==> g == g0)
    && (r.Interrupted? ==> !(NoFaults(faults) && Distinct(imgs)))
    && (r.Pulled? || r.TagConflict? ==>
          && Progress(lib, g0, g, imgs, 0)
          && (r.TagConflict? <==> Conflicts(repos0, repo, tag, imgs[0].id)))
    && repos == (if r.Pulled? then SetTag(repos0, repo, tag, imgs[0].id) else repos0)
    && (r.Pulled? ==> (r.updated <==> g != g0 || repo !in repos0 || tag !in repos0[repo]))
  }

  /** The IDs of the lowest layers, the base first. */
  ghost predicate BaseFirst(imgs: seq<Descriptor>, layerIDs: seq<ID>) {
    |layerIDs| <= |imgs| && forall t :: 0 <= t < |layerIDs| ==> layerIDs[t] == imgs[|imgs| - 1 - t].id
  }

  /** The session holds these layers too. */
  ghost predicate HeldMore(h: Holders, h': Holders, session: Session, layerIDs: seq<ID>) {
    Tidy(h') && Pairs(h') == Pairs(h) + PairsOf(session, layerIDs)
  }

  lemma HeldMoreStep(h: Holders, h': Holders, h'': Holders, session: Session, layerIDs: seq<ID>, id: ID)
    requires HeldMore(h, h', session, layerIDs) && HeldMore(h', h'', session, [id])
    ensures HeldMore(h, h'', session, layerIDs + [id])
  {
    assert PairsOf(session, layerIDs + [id]) == PairsOf(session, layerIDs) + PairsOf(session, [id]);
  }

  /** Nothing new is held, and nothing is lost but what the session held of these layers. */
  ghost predicate HeldLess(h: Holders, h': Holders, session: Session, ids: set<ID>) {
    && Tidy(h') && Pairs(h') <= Pairs(h)
    && forall p :: p in Pairs(h) && p !in Pairs(h') ==> p.session == session && p.layer in ids
  }

  /** The manifest is accepted and all that is left of it can be hashed. */
  ghost predicate Describable(lib: Library, layers: seq<string>, history: seq<string>)
    requires |layers| == |history| > 0
  {
    && Acceptable(lib, history)
    && var ks := Ends(Images(lib, history), 0);
    Infos(lib, Pick(layers, ks), Pick(history, ks)).Some?
  }

  /** The strong IDs of the manifest that are taken are such that probing from them ends. */
  ghost predicate ManifestSpreads(lib: Library, g: Graph, layers: seq<string>, history: seq<string>)
    requires |layers| == |history| > 0
  {
    Describable(lib, layers, history) ==>
      var ks := Ends(Images(lib, history), 0);
      Spreads(lib, g, Infos(lib, Pick(layers, ks), Pick(history, ks)).value)
  }

  /** The layers and history left of a manifest, and the descriptors read from them in graph `g`. */
  ghost predicate ReadFrom(lib: Library, g: Graph, layers0: seq<string>, history0: seq<string>, layers: seq<string>,
                           history: seq<string>, migrationFails: bool, imgs: seq<Descriptor>)
    requires |layers0| == |history0| > 0 && ManifestSpreads(lib, g, layers0, history0)
  {
    && Describable(lib, layers0, history0)
    && var ks := Ends(Images(lib, history0), 0);
    && layers == Pick(layers0, ks) && history == Pick(history0, ks)
    && imgs == if migrationFails then Infos(lib, layers, history).value else Chosen(lib, g, layers, history)
  }

  lemma DescriptorsReady(lib: Library, g: Graph, layers: seq<string>, history: seq<string>, migrationFails: bool,
                         imgs: seq<Descriptor>)
    requires Sound(lib) && "" !in g && |layers| == |history|
    requires Infos(lib, layers, history).Some? && Spreads(lib, g, Infos(lib, layers, history).value)
    requires imgs == if migrationFails then Infos(lib, layers, history).value
                     else Chosen(lib, g, layers, history)
    ensures Hashed(lib, layers, history, imgs) && LinksUp(lib, imgs)
    ensures !migrationFails ==> FreeOrValid(lib, g, imgs)
    ensures layers != [] && CollisionFree(lib) && PlainBase(lib, history) ==> Distinct(imgs)
  {
    var infos := Infos(lib, layers, history).value;
    InfosHashed(lib, layers, history);
    if layers != [] && CollisionFree(lib) && PlainBase(lib, history) {
      DescriptorsDistinct(lib, g, layers, history, infos);
    }
    if migrationFails {
      InfosLinked(lib, layers, history, infos);
    } else {
      ChosenReady(lib, g, layers, history, infos);
    }
  }

  lemma ChosenReady(lib: Library, g: Graph, layers: seq<string>, history: seq<string>, infos: seq<Descriptor>)
    requires Sound(lib) && Spreads(lib, g, infos) && "" !in g
    requires Hashed(lib, layers, history, infos) && AllStrong(infos)
    ensures var imgs := WithParents(Choose(lib, g, infos).imgs);
            Hashed(lib, layers, history, imgs) && LinksUp(lib, imgs) && FreeOrValid(lib, g, imgs)
  {
    var c := Choose(lib, g, infos).imgs;
    forall i | 0 <= i < |infos| ensures infos[i].id != "" {
      assert infos[i] in infos;
      StrongIDNotEmpty(lib, layers, history, infos, i);
    }
    ChoiceIsFreeOrValid(lib, g, infos);
    ChosenNotEmpty(lib, g, infos);
    IDsKeepHashes(lib, layers, history, infos, c);
    WithParentsLinked(lib, layers, history, c);
    WithParentsFreeOrValid(lib, g, c);
  }

  lemma PlainBaseStoresNone(lib: Library, layers: seq<string>, history: seq<string>, imgs: seq<Descriptor>)
    requires imgs != [] && Hashed(lib, layers, history, imgs) && PlainBase(lib, history)
    ensures StoredParent(lib, imgs[|imgs| - 1]) == ""
  {
    assert Level(lib, layers, history, imgs, |imgs| - 1);
  }
}

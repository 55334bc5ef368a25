/**
  Deleting an image (`daemon/image_delete.go`, `Delete` and `ByID` in `graph/tags.go`): untag it,
  remove it when nothing refers to it any more, and prune the ancestors that become useless.
 */
module DeleteSpec {
  import opened Options
  import opened References
  import opened ImageConfig
  import opened ImageGraph

  datatype Container = Container(imageID: ID, running: bool)

  /** What the caller names: a reference, or an image by its ID. */
  datatype Name = ByRef(ref: Ref) | ByID(id: ID)

  datatype State = State(graph: Graph, repos: Repositories, retained: set<ID>, containers: seq<Container>)

  datatype DeleteError = NotFound | MultipleRepositories | InUse(id: ID) | MissingParent(id: ID)

  // ---------- references ----------

  /** The references to an image (`ByID`). */
  function Refs(repos: Repositories, id: ID): (s: set<Ref>)
    ensures forall ref :: ref in s <==> Points(repos, ref, id)
  {
    set r, t | r in repos && t in repos[r] && repos[r][t] == id :: Ref(r, t)
  }

  /** `Delete` of one reference; a repository left empty goes too. */
  function Untag(repos: Repositories, ref: Ref): Repositories {
    if ref.repo !in repos || ref.tag !in repos[ref.repo] then repos
    else
      var rest := repos[ref.repo] - {ref.tag};
      if rest == map[] then repos - {ref.repo} else repos[ref.repo := rest]
  }

  function UntagAll(repos: Repositories, refs: seq<Ref>): Repositories {
    if refs == [] then repos else Untag(UntagAll(repos, refs[..|refs| - 1]), refs[|refs| - 1])
  }

  lemma UntagPoints(repos: Repositories, ref: Ref, ref': Ref, id: ID)
    ensures Points(Untag(repos, ref), ref', id) <==> Points(repos, ref', id) && ref' != ref
  {
    if Points(repos, ref', id) && ref' != ref && ref'.repo == ref.repo {
      assert ref'.tag in repos[ref.repo] - {ref.tag};
    }
  }

  lemma {:induction false} UntagAllPoints(repos: Repositories, refs: seq<Ref>, ref: Ref, id: ID)
    ensures Points(UntagAll(repos, refs), ref, id) <==> Points(repos, ref, id) && ref !in refs
  {
    if refs != [] {
      var init, last := refs[..|refs| - 1], refs[|refs| - 1];
      UntagAllPoints(repos, init, ref, id);
      UntagPoints(UntagAll(repos, init), last, ref, id);
      assert refs == init + [last];
    }
  }

  // ---------- what protects an image ----------

  /**
    The images in use: those held by a pull or build, and the ancestors of any container's image;
    with force, of a running container's image only.
   */
  ghost function Busy(s: State, force: bool): set<ID>
    requires Acyclic(s.graph)
  {
    s.retained + set c, x | c in s.containers && (c.running || !force) && x in Ancestors(s.graph, c.imageID) :: x
  }

  /** What one container has against the removal of an image: it uses it, or its own history is cut off. */
  ghost function Objection(g: Graph, c: Container, id: ID, force: bool): Option<DeleteError>
    requires Acyclic(g)
  {
    if c.imageID !in g then None
    else if id in Ancestors(g, c.imageID) && (c.running || !force) then Some(InUse(id))
    else if LastParent(g, c.imageID) != "" then Some(MissingParent(LastParent(g, c.imageID)))
    else None
  }

  ghost function FirstObjection(g: Graph, cs: seq<Container>, id: ID, force: bool): Option<DeleteError>
    requires Acyclic(g)
  {
    if cs == [] then None
    else
      var e := FirstObjection(g, cs[..|cs| - 1], id, force);
      if e.Some? then e else Objection(g, cs[|cs| - 1], id, force)
  }

  /** The answer of `canDeleteImage`. */
  ghost function Obstacle(s: State, id: ID, force: bool): Option<DeleteError>
    requires Acyclic(s.graph)
  {
    if id in s.retained then Some(InUse(id)) else FirstObjection(s.graph, s.containers, id, force)
  }

  /** Some container's history does not reach a base image. */
  ghost predicate CutOff(s: State)
    requires Acyclic(s.graph)
  {
    exists c :: c in s.containers && c.imageID in s.graph && LastParent(s.graph, c.imageID) != ""
  }

  lemma {:induction false} FirstObjectionIff(g: Graph, cs: seq<Container>, id: ID, force: bool)
    requires Acyclic(g)
    ensures FirstObjection(g, cs, id, force).Some? <==> exists c :: c in cs && Objection(g, c, id, force).Some?
  {
    if cs != [] {
      var init, last := cs[..|cs| - 1], cs[|cs| - 1];
      FirstObjectionIff(g, init, id, force);
      assert cs == init + [last];
    }
  }

  /** The first objection stands, whatever the containers after it say. */
  lemma {:induction false} PrefixDecides(g: Graph, cs: seq<Container>, n: nat, id: ID, force: bool)
    requires Acyclic(g) && n <= |cs| && FirstObjection(g, cs[..n], id, force).Some?
    ensures FirstObjection(g, cs, id, force) == FirstObjection(g, cs[..n], id, force)
    decreases |cs|
  {
    if n == |cs| {
      assert cs[..n] == cs;
    } else {
      assert cs[..|cs| - 1][..n] == cs[..n];
      PrefixDecides(g, cs[..|cs| - 1], n, id, force);
    }
  }

  /** An image may go exactly when it is not in use and no container's history is cut off. */
  lemma ObstacleIff(s: State, id: ID, force: bool)
    requires Acyclic(s.graph)
    ensures Obstacle(s, id, force).Some? <==> id in Busy(s, force) || CutOff(s)
  {
    FirstObjectionIff(s.graph, s.containers, id, force);
    forall c | c in s.containers
      ensures Objection(s.graph, c, id, force).Some? <==>
              || ((c.running || !force) && id in Ancestors(s.graph, c.imageID))
              || (c.imageID in s.graph && LastParent(s.graph, c.imageID) != "")
    {}
  }

  /** An objection is that the image is in use, or names the parent at which some container's history is cut off. */
  ghost predicate Objects(s: State, id: ID, force: bool, e: DeleteError)
    requires Acyclic(s.graph)
  {
    || (e == InUse(id) && id in Busy(s, force))
    || exists c :: c in s.containers && c.imageID in s.graph && LastParent(s.graph, c.imageID) != ""
                   && e == MissingParent(LastParent(s.graph, c.imageID))
  }

  lemma {:induction false} FirstObjects(s: State, cs: seq<Container>, id: ID, force: bool)
    requires Acyclic(s.graph) && (forall c :: c in cs ==> c in s.containers)
    ensures var e := FirstObjection(s.graph, cs, id, force); e.Some? ==> Objects(s, id, force, e.value)
  {
    if cs != [] {
      FirstObjects(s, cs[..|cs| - 1], id, force);
    }
  }

  /** Which error `canDeleteImage` gives: the one that applies, where only one does. */
  lemma ObstacleKind(s: State, id: ID, force: bool)
    requires Acyclic(s.graph) && Obstacle(s, id, force).Some?
    ensures Objects(s, id, force, Obstacle(s, id, force).value)
    ensures id in s.retained || !CutOff(s) ==> Obstacle(s, id, force) == Some(InUse(id))
    ensures id !in Busy(s, force) ==> Obstacle(s, id, force).value.MissingParent?
  {
    FirstObjects(s, s.containers, id, force);
  }

  /** Removing a leaf that is not busy changes nobody's protection. */
  lemma BusyStable(s: State, leaf: ID, force: bool)
    requires Acyclic(s.graph) && IsLeaf(s.graph, leaf) && leaf !in Busy(s, force)
    ensures Acyclic(s.graph - {leaf})
    ensures Busy(s.(graph := s.graph - {leaf}), force) == Busy(s, force)
  {
    RemoveLeaf(s.graph, leaf);
    var g, g' := s.graph, s.graph - {leaf};
    forall c | c in s.containers && (c.running || !force)
      ensures Ancestors(g', c.imageID) == Ancestors(g, c.imageID)
    {
      if c.imageID in g {
        assert Lineage(g, c.imageID)[0] == c.imageID;
        assert c.imageID in Ancestors(g, c.imageID);
      }
    }
  }

  // ---------- the deletion ----------

  datatype Outcome = Outcome(error: Option<DeleteError>, untagged: set<Ref>, deleted: seq<ID>)

  function Resolve(s: State, name: Name): ID {
    match name
    case ByRef(ref) => if ref.repo in s.repos && ref.tag in s.repos[ref.repo] then s.repos[ref.repo][ref.tag] else ""
    case ByID(id) => id
  }

  predicate SeveralRepos(refs: set<Ref>) {
    exists a, b :: a in refs && b in refs && a.repo != b.repo
  }

  /** The references that the call takes away. */
  function Doomed(s: State, name: Name): set<Ref> {
    if name.ByRef? then {name.ref} else Refs(s.repos, Resolve(s, name))
  }

  datatype Decision = Refuse(error: Option<DeleteError>) | UntagOnly | RemoveToo

  /** What `imgDeleteHelper` decides before it changes anything. */
  ghost function Decide(s: State, name: Name, first: bool, force: bool): (d: Decision)
    requires Acyclic(s.graph)
    ensures d.RemoveToo? ==> Resolve(s, name) in s.graph && IsLeaf(s.graph, Resolve(s, name))
  {
    var id := Resolve(s, name);
    var refs := Refs(s.repos, id);
    if id !in s.graph then Refuse(Some(NotFound))
    else if first && name.ByID? && SeveralRepos(refs) && !force then Refuse(Some(MultipleRepositories))
    else if !first && Doomed(s, name) != {} then Refuse(None)
    else if (|refs| <= 1 || (name.ByID? && !SeveralRepos(refs))) && Obstacle(s, id, force).Some? then
      Refuse(Obstacle(s, id, force))
    else if refs > Doomed(s, name) || !IsLeaf(s.graph, id) then UntagOnly
    else RemoveToo
  }

  /** What `imgDeleteHelper` does: first for the named image, then for each parent in turn. */
  ghost function Delete(s: State, name: Name, first: bool, force: bool, noprune: bool): (r: Outcome)
    requires Acyclic(s.graph)
    decreases |s.graph|, 1
  {
    match Decide(s, name, first, force)
    case Refuse(e) => Outcome(e, {}, [])
    case UntagOnly => Outcome(None, Doomed(s, name), [])
    case RemoveToo =>
      var r := Removal(s, Resolve(s, name), force, noprune);
      Outcome(if first then r.0 else None, Doomed(s, name), r.1)
  }

  lemma DeleteCases(s: State, name: Name, first: bool, force: bool, noprune: bool)
    requires Acyclic(s.graph)
    ensures var d, r := Decide(s, name, first, force), Delete(s, name, first, force, noprune);
            && (d.Refuse? ==> r == Outcome(d.error, {}, []))
            && (d.UntagOnly? ==> r == Outcome(None, Doomed(s, name), []))
            && (d.RemoveToo? ==>
                  var x := Removal(s, Resolve(s, name), force, noprune);
                  r == Outcome(if first then x.0 else None, Doomed(s, name), x.1))
  {
  }

  /** The removal of an image and the pruning of its parents: the error and the images removed. */
  ghost function Removal(s: State, id: ID, force: bool, noprune: bool): (Option<DeleteError>, seq<ID>)
    requires Acyclic(s.graph) && id in s.graph && IsLeaf(s.graph, id)
    decreases |s.graph|, 0
  {
    RemoveLeaf(s.graph, id);
    if noprune || s.graph[id].parent == "" then (None, [id])
    else
      var r := Delete(s.(graph := s.graph - {id}), ByID(s.graph[id].parent), false, force, noprune);
      (r.error, [id] + r.deleted)
  }

  lemma DecideIgnoresOtherRefs(s: State, repos: Repositories, id: ID, force: bool)
    requires Acyclic(s.graph) && (id in s.graph ==> Refs(repos, id) == Refs(s.repos, id))
    ensures Decide(s.(repos := repos), ByID(id), false, force) == Decide(s, ByID(id), false, force)
    ensures Decide(s, ByID(id), false, force).RemoveToo? ==> Doomed(s.(repos := repos), ByID(id)) == Doomed(s, ByID(id)) == {}
  {
  }

  /** Pruning looks only at the references to the images of the graph, and takes none away. */
  lemma {:induction false} DeleteIgnoresOtherRefs(s: State, repos: Repositories, id: ID, force: bool, noprune: bool)
    requires Acyclic(s.graph) && forall x :: x in s.graph ==> Refs(repos, x) == Refs(s.repos, x)
    ensures Delete(s.(repos := repos), ByID(id), false, force, noprune) == Delete(s, ByID(id), false, force, noprune)
    ensures Delete(s, ByID(id), false, force, noprune).untagged == {}
    decreases |s.graph|, 1
  {
    DecideIgnoresOtherRefs(s, repos, id, force);
    if Decide(s, ByID(id), false, force).RemoveToo? {
      RemovalIgnoresOtherRefs(s, repos, id, force, noprune);
    }
  }

  lemma {:induction false} RemovalIgnoresOtherRefs(s: State, repos: Repositories, id: ID, force: bool, noprune: bool)
    requires Acyclic(s.graph) && id in s.graph && IsLeaf(s.graph, id)
    requires forall x :: x in s.graph && x != id ==> Refs(repos, x) == Refs(s.repos, x)
    ensures Removal(s.(repos := repos), id, force, noprune) == Removal(s, id, force, noprune)
    decreases |s.graph|, 0
  {
    RemoveLeaf(s.graph, id);
    if !noprune && s.graph[id].parent != "" {
      var s' := s.(graph := s.graph - {id});
      assert s'.(repos := repos) == s.(repos := repos).(graph := s.graph - {id});
      DeleteIgnoresOtherRefs(s', repos, s.graph[id].parent, force, noprune);
    }
  }

  // ---------- what it keeps ----------

  ghost function Without(g: Graph, ids: seq<ID>): Graph {
    g - (set x | x in ids)
  }

  /** One level of the deletion: the image first, then whatever is pruned above it. */
  lemma DeleteStep(s: State, name: Name, first: bool, force: bool, noprune: bool)
    requires Acyclic(s.graph) && Delete(s, name, first, force, noprune).deleted != []
    ensures var id := Resolve(s, name);
            && id in s.graph && IsLeaf(s.graph, id) && Acyclic(s.graph - {id})
            && var d, parent := Delete(s, name, first, force, noprune).deleted, s.graph[id].parent;
               d == [id] + if noprune || parent == "" then []
                           else Delete(s.(graph := s.graph - {id}), ByID(parent), false, force, noprune).deleted
  {
    RemoveLeaf(s.graph, Resolve(s, name));
  }

  /**
    A run of removals from `id` upwards: each image is there, has no children and, without force,
    is not in use; the first has no references but the allowed ones, the others have none.
   */
  ghost predicate Removals(s: State, id: ID, allowed: set<Ref>, force: bool, d: seq<ID>)
    requires Acyclic(s.graph)
    decreases |d|
  {
    d == [] ||
    (&& d[0] == id && id in s.graph && IsLeaf(s.graph, id)
     && Refs(s.repos, id) <= allowed && (!force ==> id !in Busy(s, false))
     && Acyclic(s.graph - {id})
     && Removals(s.(graph := s.graph - {id}), s.graph[id].parent, {}, force, d[1..]))
  }

  /** Without force an image is removed only if it is not in use and all its references go. */
  lemma RemovedIsFree(s: State, name: Name, first: bool, force: bool)
    requires Acyclic(s.graph) && Decide(s, name, first, force).RemoveToo?
    ensures var id := Resolve(s, name);
            && (!force ==> id !in Busy(s, false))
            && Refs(s.repos, id) <= Doomed(s, name) && (!first ==> Refs(s.repos, id) == {})
  {
    var id := Resolve(s, name);
    var refs := Refs(s.repos, id);
    ObstacleIff(s, id, force);
    if name.ByRef? {
      assert name.ref in refs;
      if |refs| > 1 {
        OneOfMany(refs, name.ref);
      }
    }
  }

  /** Every call makes such a run. */
  lemma {:induction false} DeleteRemovals(s: State, name: Name, first: bool, force: bool, noprune: bool)
    requires Acyclic(s.graph)
    ensures Removals(s, Resolve(s, name), if first then Doomed(s, name) else {}, force,
                     Delete(s, name, first, force, noprune).deleted)
    decreases |s.graph|
  {
    DeleteCases(s, name, first, force, noprune);
    if Delete(s, name, first, force, noprune).deleted != [] {
      DeleteStep(s, name, first, force, noprune);
      RemovedIsFree(s, name, first, force);
      var id := Resolve(s, name);
      if !noprune && s.graph[id].parent != "" {
        DeleteRemovals(s.(graph := s.graph - {id}), ByID(s.graph[id].parent), false, force, noprune);
      }
    }
  }

  lemma {:induction false} RemovalsPrefix(s: State, id: ID, allowed: set<Ref>, force: bool, d: seq<ID>)
    requires Acyclic(s.graph) && d != [] && Removals(s, id, allowed, force, d)
    ensures id in s.graph && d <= Lineage(s.graph, id)
    decreases |d|
  {
    LineageStep(s.graph, id);
    RemoveLeaf(s.graph, id);
    assert d == [id] + d[1..];
    if |d| > 1 {
      RemovalsPrefix(s.(graph := s.graph - {id}), s.graph[id].parent, {}, force, d[1..]);
    }
  }

  /** The deleted images are an initial piece of the named image's lineage. */
  lemma DeletesPrefix(s: State, name: Name, first: bool, force: bool, noprune: bool)
    requires Acyclic(s.graph) && Delete(s, name, first, force, noprune).deleted != []
    ensures Resolve(s, name) in s.graph
    ensures Delete(s, name, first, force, noprune).deleted <= Lineage(s.graph, Resolve(s, name))
  {
    DeleteRemovals(s, name, first, force, noprune);
    RemovalsPrefix(s, Resolve(s, name), if first then Doomed(s, name) else {}, force,
                   Delete(s, name, first, force, noprune).deleted);
  }

  lemma WithoutCons(g: Graph, id: ID, d: seq<ID>)
    ensures Without(g, [id] + d) == Without(g - {id}, d)
    ensures Without(g, []) == g
  {
  }

  /** No image loses its parent. */
  ghost predicate KeepsParents(g: Graph, g': Graph) {
    && Acyclic(g') && (Closed(g) ==> Closed(g'))
    && forall x :: x in g' ==> x in g && g'[x] == g[x] && (g[x].parent in g ==> g[x].parent in g')
  }

  lemma LeafKeepsParents(g: Graph, leaf: ID)
    requires Acyclic(g) && IsLeaf(g, leaf)
    ensures KeepsParents(g, g - {leaf})
  {
    RemoveLeaf(g, leaf);
  }

  lemma KeepsParentsTwice(g: Graph, g': Graph, g'': Graph)
    requires KeepsParents(g, g') && KeepsParents(g', g'')
    ensures KeepsParents(g, g'')
  {
  }

  lemma {:induction false} RemovalsKeepParents(s: State, id: ID, allowed: set<Ref>, force: bool, d: seq<ID>)
    requires Acyclic(s.graph) && Removals(s, id, allowed, force, d)
    ensures KeepsParents(s.graph, Without(s.graph, d))
    decreases |d|
  {
    WithoutCons(s.graph, id, []);
    if d != [] {
      LeafKeepsParents(s.graph, id);
      RemovalsKeepParents(s.(graph := s.graph - {id}), s.graph[id].parent, {}, force, d[1..]);
      assert d == [id] + d[1..];
      WithoutCons(s.graph, id, d[1..]);
      KeepsParentsTwice(s.graph, s.graph - {id}, Without(s.graph, d));
    }
  }

  /** What is left is still acyclic, and no image loses its parent. */
  lemma DeleteKeepsParents(s: State, name: Name, first: bool, force: bool, noprune: bool)
    requires Acyclic(s.graph)
    ensures KeepsParents(s.graph, Without(s.graph, Delete(s, name, first, force, noprune).deleted))
  {
    DeleteRemovals(s, name, first, force, noprune);
    RemovalsKeepParents(s, Resolve(s, name), if first then Doomed(s, name) else {}, force,
                        Delete(s, name, first, force, noprune).deleted);
  }

  lemma {:induction false} RemovalsNothingBusy(s: State, id: ID, allowed: set<Ref>, d: seq<ID>, k: nat)
    requires Acyclic(s.graph) && Removals(s, id, allowed, false, d) && k < |d|
    ensures d[k] !in Busy(s, false) && Refs(s.repos, d[k]) <= (if k == 0 then allowed else {})
    decreases |d|
  {
    if k > 0 {
      BusyStable(s, id, false);
      RemovalsNothingBusy(s.(graph := s.graph - {id}), s.graph[id].parent, {}, d[1..], k - 1);
    }
  }

  /**
    Without force no deleted image is held or is an ancestor of any container's image, and past
    the first one none has a reference.
   */
  lemma DeletesNothingBusy(s: State, name: Name, first: bool, noprune: bool, k: nat)
    requires Acyclic(s.graph) && k < |Delete(s, name, first, false, noprune).deleted|
    ensures var x := Delete(s, name, first, false, noprune).deleted[k];
            && x !in Busy(s, false)
            && Refs(s.repos, x) <= if first && k == 0 then Doomed(s, name) else {}
  {
    DeleteRemovals(s, name, first, false, noprune);
    RemovalsNothingBusy(s, Resolve(s, name), if first then Doomed(s, name) else {},
                        Delete(s, name, first, false, noprune).deleted, k);
  }

  /** What can keep an image from being pruned. */
  ghost predicate Needed(s: State, x: ID, force: bool)
    requires Acyclic(s.graph)
  {
    Refs(s.repos, x) != {} || x in Busy(s, force) || CutOff(s) || !IsLeaf(s.graph, x)
  }

  lemma NotPrunedIsNeeded(s: State, id: ID, force: bool)
    requires Acyclic(s.graph) && id in s.graph && Delete(s, ByID(id), false, force, false).deleted == []
    ensures Needed(s, id, force)
  {
    ObstacleIff(s, id, force);
  }

  /** The next ancestor seen from one level up. */
  lemma NextAncestor(g: Graph, id: ID, d: seq<ID>)
    requires Acyclic(g) && id in g && IsLeaf(g, id) && 1 + |d| < |Lineage(g, id)|
    ensures var parent, g' := g[id].parent, g - {id};
            && Acyclic(g') && parent in g' && |d| < |Lineage(g', parent)|
            && Lineage(g, id)[1 + |d|] == Lineage(g', parent)[|d|]
            && Without(g, [id] + d) == Without(g', d)
  {
    LineageStep(g, id);
    RemoveLeaf(g, id);
    WithoutCons(g, id, d);
  }

  /** Pruning does not stop early: the first ancestor left behind is needed. */
  lemma {:induction false} PruningStopsAtNeeded(s: State, name: Name, first: bool, force: bool, d: seq<ID>)
    requires Acyclic(s.graph) && d == Delete(s, name, first, force, false).deleted && d != []
    requires Resolve(s, name) in s.graph && |d| < |Lineage(s.graph, Resolve(s, name))|
    ensures Acyclic(Without(s.graph, d))
    ensures Needed(s.(graph := Without(s.graph, d)), Lineage(s.graph, Resolve(s, name))[|d|], force)
    decreases |s.graph|
  {
    DeleteStep(s, name, first, force, false);
    var id := Resolve(s, name);
    LineageStep(s.graph, id);
    NextAncestor(s.graph, id, d[1..]);
    var parent, s' := s.graph[id].parent, s.(graph := s.graph - {id});
    assert d == [id] + d[1..] && d[1..] == Delete(s', ByID(parent), false, force, false).deleted;
    if d[1..] == [] {
      NotPrunedIsNeeded(s', parent, force);
      WithoutCons(s'.graph, id, []);
    } else {
      PruningStopsAtNeeded(s', ByID(parent), false, force, d[1..]);
    }
  }

  lemma OneOfMany(refs: set<Ref>, ref: Ref)
    requires ref in refs && |refs| > 1
    ensures refs > {ref}
  {
    assert |refs - {ref}| == |refs| - 1;
    var other :| other in refs - {ref};
  }

  /**
    A call can delete an image and still fail: exactly when pruning is on and the image's parent is
    missing, or is untagged but must stay because it is in use or some history is cut off. The
    source then returns the parent's error and no list.
   */
  lemma ErrorAfterDeletionIff(s: State, name: Name, force: bool, noprune: bool)
    requires Acyclic(s.graph)
    ensures var r, id := Delete(s, name, true, force, noprune), Resolve(s, name);
            r.error.Some? && r.deleted != [] <==>
            && Decide(s, name, true, force).RemoveToo?
            && !noprune && s.graph[id].parent != ""
            && Acyclic(s.graph - {id})
            && PruningFails(s.(graph := s.graph - {id}), s.graph[id].parent, force)
  {
    var id := Resolve(s, name);
    DeleteCases(s, name, true, force, noprune);
    if Decide(s, name, true, force).RemoveToo? && !noprune && s.graph[id].parent != "" {
      RemoveLeaf(s.graph, id);
      PruningFailsIff(s.(graph := s.graph - {id}), s.graph[id].parent, force, noprune);
    }
  }

  /** Two untagged images, a stopped container on the parent: the child goes, and the call still fails. */
  lemma ErrorAfterDeletionExample()
    ensures var g := map["top" := Entry("base", None, None), "base" := Entry("", None, None)];
            var s := State(g, map[], {}, [Container("base", false)]);
            && Rooted(g)
            && Delete(s, ByID("top"), true, false, false) == Outcome(Some(InUse("base")), {}, ["top"])
  {
    var g := map["top" := Entry("base", None, None), "base" := Entry("", None, None)];
    var g' := g - {"top"};
    var c := Container("base", false);
    var s := State(g, map[], {}, [c]);
    var s' := s.(graph := g');
    assert IsLineage(g, "base", ["base"]);
    assert ["top", "base"][1..] == ["base"];
    assert IsLineage(g, "top", ["top", "base"]);
    RemoveLeaf(g, "top");
    LineageStep(g, "base");
    assert Ancestors(g, "base") == {"base"} && Ancestors(g', "base") == {"base"};
    LineageStep(g', "base");
    assert [c][..0] == [];
    assert FirstObjection(g, [c], "top", false) == Objection(g, c, "top", false) == None;
    assert FirstObjection(g', [c], "base", false) == Objection(g', c, "base", false) == Some(InUse("base"));
    DeleteCases(s', ByID("base"), false, false, false);
    assert Delete(s', ByID("base"), false, false, false) == Outcome(Some(InUse("base")), {}, []);
    DeleteCases(s, ByID("top"), true, false, false);
    assert Refs(s.repos, "top") == {};
    assert Decide(s, ByID("top"), true, false) == RemoveToo;
  }

  ghost predicate PruningFails(s: State, parent: ID, force: bool)
    requires Acyclic(s.graph)
  {
    parent !in s.graph || (Refs(s.repos, parent) == {} && (parent in Busy(s, force) || CutOff(s)))
  }

  lemma PruningFailsIff(s: State, parent: ID, force: bool, noprune: bool)
    requires Acyclic(s.graph)
    ensures Delete(s, ByID(parent), false, force, noprune).error.Some? <==> PruningFails(s, parent, force)
  {
    DeleteCases(s, ByID(parent), false, force, noprune);
    ObstacleIff(s, parent, force);
  }

  // ---------- the call as a whole ----------

  /** The image belongs to more than one repository. */
  ghost predicate InTwoRepos(s: State, id: ID) {
    exists a, b :: Points(s.repos, a, id) && Points(s.repos, b, id) && a.repo != b.repo
  }

  /** The call must ask whether the image may go: its last reference is named, or it is named by its ID in one repository. */
  ghost predicate MustAsk(s: State, name: Name, id: ID) {
    |Refs(s.repos, id)| <= 1 || (name.ByID? && !InTwoRepos(s, id))
  }

  /**
    Exactly when a call is refused, and why: the image is not there; it is named by an ID that
    belongs to several repositories, without force; or it must be asked and may not go.
   */
  lemma RefusedIff(s: State, name: Name, id: ID, force: bool, noprune: bool)
    requires Acyclic(s.graph) && id == Resolve(s, name)
    ensures var r := Delete(s, name, true, force, noprune);
            && (r.error.Some? && r.deleted == [] <==>
                  || id !in s.graph
                  || (name.ByID? && InTwoRepos(s, id) && !force)
                  || (MustAsk(s, name, id) && (id in Busy(s, force) || CutOff(s))))
            && (r.error.Some? && r.deleted == [] ==>
                  && r.untagged == {}
                  && if id !in s.graph then r.error.value == NotFound
                     else if name.ByID? && InTwoRepos(s, id) && !force then r.error.value == MultipleRepositories
                     else Objects(s, id, force, r.error.value)
                          && (id in s.retained || !CutOff(s) ==> r.error.value == InUse(id)))
  {
    DeleteCases(s, name, true, force, noprune);
    SeveralIff(s, id);
    ObstacleIff(s, id, force);
    if Obstacle(s, id, force).Some? {
      ObstacleKind(s, id, force);
    }
  }

  lemma SeveralIff(s: State, id: ID)
    ensures SeveralRepos(Refs(s.repos, id)) <==> InTwoRepos(s, id)
  {
    if a, b :| Points(s.repos, a, id) && Points(s.repos, b, id) && a.repo != b.repo {
      assert a in Refs(s.repos, id) && b in Refs(s.repos, id);
    }
  }

  /**
    A call that is not refused takes away the named reference, or all references of a named ID; it
    removes the image exactly when that leaves no reference and it has no children, and without
    pruning nothing else.
   */
  lemma AcceptedDoes(s: State, name: Name, id: ID, force: bool, noprune: bool)
    requires Acyclic(s.graph) && id == Resolve(s, name)
    requires var r := Delete(s, name, true, force, noprune); r.error.None? || r.deleted != []
    ensures var r := Delete(s, name, true, force, noprune);
            && id in s.graph
            && (forall ref :: ref in r.untagged <==> if name.ByRef? then ref == name.ref else Points(s.repos, ref, id))
            && (r.deleted != [] <==> IsLeaf(s.graph, id) && forall ref :: Points(s.repos, ref, id) ==> ref in r.untagged)
            && (r.deleted != [] ==> r.deleted[0] == id && (noprune ==> r.deleted == [id]))
  {
    DeleteCases(s, name, true, force, noprune);
    var r := Delete(s, name, true, force, noprune);
    var d := Decide(s, name, true, force);
    if d.RemoveToo? {
      DeleteStep(s, name, true, force, noprune);
      RemovedIsFree(s, name, true, force);
    } else if d.UntagOnly? && Refs(s.repos, id) > Doomed(s, name) {
      var ref :| ref in Refs(s.repos, id) && ref !in Doomed(s, name);
      assert Points(s.repos, ref, id);
    }
  }

  /** A repository never stays behind empty. */
  lemma {:induction false} NoEmptyRepository(repos: Repositories, refs: seq<Ref>)
    requires forall r :: r in repos ==> repos[r] != map[]
    ensures forall r :: r in UntagAll(repos, refs) ==> UntagAll(repos, refs)[r] != map[]
  {
    if refs != [] {
      NoEmptyRepository(repos, refs[..|refs| - 1]);
    }
  }

  /** No reference is left that points at a deleted image. */
  lemma DeleteLeavesNoDangling(s: State, name: Name, noprune: bool, untagged: seq<Ref>, k: nat)
    requires Acyclic(s.graph) && k < |Delete(s, name, true, false, noprune).deleted|
    requires forall ref :: ref in untagged <==> ref in Delete(s, name, true, false, noprune).untagged
    ensures Refs(UntagAll(s.repos, untagged), Delete(s, name, true, false, noprune).deleted[k]) == {}
  {
    var r := Delete(s, name, true, false, noprune);
    var x := r.deleted[k];
    DeletesNothingBusy(s, name, true, noprune, k);
    forall ref ensures ref !in Refs(UntagAll(s.repos, untagged), x) {
      UntagAllPoints(s.repos, untagged, ref, x);
    }
  }
}

module ImageDelete {
  import opened Options
  import opened References
  import opened ImageConfig
  import opened ImageGraph
  import opened DeleteSpec

  datatype DeleteResult = Report(untagged: seq<Ref>, deleted: seq<ID>) | NothingDeleted | Failed(error: DeleteError)

  class Daemon {
    var graph: Graph
    var repositories: Repositories
    var retained: set<ID>
    var containers: seq<Container>

    ghost function State(): State
      reads this
    {
      DeleteSpec.State(graph, repositories, retained, containers)
    }

    /** `WalkHistory` from the image of a container, with the handler of `canDeleteImage`. */
    method AskContainer(c: Container, id: ID, force: bool) returns (error: Option<DeleteError>)
      requires Acyclic(graph) && c.imageID in graph
      ensures error == Objection(graph, c, id, force)
    {
      var current := c.imageID;
      while true
        invariant current in graph && LastParent(graph, c.imageID) == LastParent(graph, current)
        invariant c.running || !force ==> (id in Ancestors(graph, c.imageID) <==> id in Ancestors(graph, current))
        decreases |Lineage(graph, current)|
      {
        LineageStep(graph, current);
        if id == current && (c.running || !force) {
          return Some(InUse(id));
        }
        var parent := graph[current].parent;
        if parent == "" {
          return None;
        }
        if parent !in graph {
          return Some(MissingParent(parent));
        }
        current := parent;
      }
    }

    /** `canDeleteImage`. */
    method CanDelete(id: ID, force: bool) returns (error: Option<DeleteError>)
      requires Acyclic(graph)
      ensures error == Obstacle(State(), id, force)
      ensures error.None? <==> id !in Busy(State(), force) && !CutOff(State())
    {
      ObstacleIff(State(), id, force);
      if id in retained {
        return Some(InUse(id));
      }
      for k := 0 to |containers|
        invariant FirstObjection(graph, containers[..k], id, force).None?
      {
        assert containers[..k + 1][..k] == containers[..k];
        if containers[k].imageID == "" || containers[k].imageID !in graph {
          continue;
        }
        error := AskContainer(containers[k], id, force);
        if error.Some? {
          PrefixDecides(graph, containers, k + 1, id, force);
          return;
        }
      }
      assert containers[..|containers|] == containers;
      error := None;
    }

    /** `ByID` for one image, in some order. */
    method References(id: ID) returns (refs: seq<Ref>)
      ensures forall ref :: ref in refs <==> ref in Refs(repositories, id)
      ensures |refs| == |Refs(repositories, id)|
    {
      refs := [];
      var todo := Refs(repositories, id);
      while todo != {}
        invariant todo <= Refs(repositories, id)
        invariant forall ref :: ref in refs <==> ref in Refs(repositories, id) - todo
        invariant |refs| + |todo| == |Refs(repositories, id)|
        decreases todo
      {
        var ref :| ref in todo;
        todo := todo - {ref};
        refs := refs + [ref];
      }
    }

    /** The grouping loop for a deletion by ID: does the image belong to several repositories? */
    method InSeveralRepos(refs: seq<Ref>) returns (several: bool)
      ensures several <==> exists i, j :: 0 <= i < |refs| && 0 <= j < |refs| && refs[i].repo != refs[j].repo
    {
      if refs == [] {
        return false;
      }
      var repoName := refs[0].repo;
      for k := 1 to |refs|
        invariant forall j :: 0 <= j < k ==> refs[j].repo == repoName
      {
        if refs[k].repo != repoName {
          assert refs[0].repo != refs[k].repo;
          return true;
        }
      }
      several := false;
    }

    /** The untagging loop. */
    method UntagEach(refs: seq<Ref>)
      modifies this`repositories
      ensures repositories == UntagAll(old(repositories), refs)
    {
      for k := 0 to |refs|
        invariant repositories == UntagAll(old(repositories), refs[..k])
      {
        assert refs[..k + 1][..k] == refs[..k];
        repositories := Untag(repositories, refs[k]);
      }
      assert refs[..|refs|] == refs;
    }

    /** The part of `imgDeleteHelper` before the first change: the image and the references to take away. */
    method Examine(name: Name, first: bool, force: bool)
      returns (refused: bool, error: Option<DeleteError>, id: ID, doomed: seq<Ref>)
      requires Acyclic(graph)
      ensures var d := Decide(State(), name, first, force);
              (refused <==> d.Refuse?) && (refused ==> error == d.error)
      ensures refused <==>
              || id !in graph
              || (first && name.ByID? && InTwoRepos(State(), id) && !force)
              || (!first && (name.ByRef? || Refs(repositories, id) != {}))
              || (MustAsk(State(), name, id) && (id in Busy(State(), force) || CutOff(State())))
      ensures id == Resolve(State(), name)
      ensures !refused ==> forall ref :: ref in doomed <==> ref in Doomed(State(), name)
    {
      refused, error, doomed := true, None, [];
      id := if name.ByID? then name.id
            else if name.ref.repo in repositories && name.ref.tag in repositories[name.ref.repo]
            then repositories[name.ref.repo][name.ref.tag] else "";
      if id !in graph {
        error := Some(NotFound);
        return;
      }
      SeveralIff(State(), id);
      ObstacleIff(State(), id, force);
      var refs := References(id);
      var several := InSeveralRepos(refs);
      assert several <==> SeveralRepos(Refs(repositories, id));
      if name.ByID? && several && !force && first {
        error := Some(MultipleRepositories);
        return;
      }
      doomed := if name.ByID? then refs else [name.ref];
      if !first && doomed != [] {
        assert doomed[0] in Doomed(State(), name);
        return;
      }
      if |refs| <= 1 || (name.ByID? && !several) {
        error := CanDelete(id, force);
        if error.Some? {
          return;
        }
      }
      refused := false;
    }

    /** Takes the references away; is the image then without references and children? */
    method TakeAway(id: ID, doomed: seq<Ref>) returns (unneeded: bool)
      modifies this`repositories
      ensures repositories == UntagAll(old(repositories), doomed)
      ensures unneeded <==> Refs(repositories, id) == {} && IsLeaf(graph, id)
    {
      UntagEach(doomed);
      var left := References(id);
      var leaf := HasNoChildren(id);
      if left != [] {
        assert left[0] in Refs(repositories, id);
      }
      unneeded := left == [] && leaf;
    }

    /** `imgDeleteHelper`. */
    method DeleteHelper(name: Name, first: bool, force: bool, noprune: bool)
      returns (error: Option<DeleteError>, untagged: seq<Ref>, deleted: seq<ID>)
      requires Acyclic(graph)
      modifies this`graph, this`repositories
      ensures error == Delete(old(State()), name, first, force, noprune).error
      ensures deleted == Delete(old(State()), name, first, force, noprune).deleted
      ensures forall ref :: ref in untagged <==> ref in Delete(old(State()), name, first, force, noprune).untagged
      ensures graph == Without(old(graph), deleted)
      ensures repositories == UntagAll(old(repositories), untagged)
      decreases |graph|, 1
    {
      untagged, deleted := [], [];
      WithoutCons(graph, "", []);
      var refused, id, doomed;
      refused, error, id, doomed := Examine(name, first, force);
      if refused {
        return;
      }
      AfterUntag(State(), name, first, force, noprune, doomed);
      var unneeded := TakeAway(id, doomed);
      untagged := doomed;
      error := None;
      if unneeded {
        var pruneError;
        pruneError, deleted := Remove(id, force, noprune);
        if first {
          error := pruneError;
        }
      }
    }

    /** `ImageDelete`; the ghost results say what happened even when the call fails. */
    method ImageDelete(name: Name, force: bool, noprune: bool)
      returns (r: DeleteResult, ghost untagged: seq<Ref>, ghost deleted: seq<ID>)
      requires Acyclic(graph)
      modifies this`graph, this`repositories
      ensures graph == Without(old(graph), deleted) && KeepsParents(old(graph), graph)
      ensures repositories == UntagAll(old(repositories), untagged)
      ensures deleted != [] ==>
                Resolve(old(State()), name) in old(graph) && deleted <= Lineage(old(graph), Resolve(old(State()), name))
      ensures !force ==> forall x :: x in deleted ==> x !in Busy(old(State()), false) && Refs(repositories, x) == {}
      ensures var d := Delete(old(State()), name, true, force, noprune);
              && deleted == d.deleted && (forall ref :: ref in untagged <==> ref in d.untagged)
              && r == if d.error.Some? then Failed(d.error.value)
                      else if untagged == [] && deleted == [] then NothingDeleted
                      else Report(untagged, deleted)
      ensures var s, id := old(State()), Resolve(old(State()), name);
              r.Failed? && deleted == [] <==>
              || id !in s.graph
              || (name.ByID? && InTwoRepos(s, id) && !force)
              || (MustAsk(s, name, id) && (id in Busy(s, force) || CutOff(s)))
      ensures r.Failed? && deleted == [] ==> repositories == old(repositories) && graph == old(graph)
      ensures var s, id := old(State()), Resolve(old(State()), name);
              !(r.Failed? && deleted == []) ==>
                && (forall ref, x :: Points(repositories, ref, x) <==>
                      Points(s.repos, ref, x) && !(if name.ByRef? then ref == name.ref else Points(s.repos, ref, id)))
                && (id !in graph <==> IsLeaf(s.graph, id) && Refs(repositories, id) == {})
    {
      var error, refs, ids := DeleteHelper(name, true, force, noprune);
      untagged, deleted := refs, ids;
      ghost var s := old(State());
      CallMeans(s, name, force, noprune, untagged);
      DeleteKeepsParents(s, name, true, force, noprune);
      if deleted != [] {
        DeletesPrefix(s, name, true, force, noprune);
      }
      if !force {
        forall k | 0 <= k < |deleted| ensures deleted[k] !in Busy(s, false) && Refs(repositories, deleted[k]) == {} {
          DeletesNothingBusy(s, name, true, noprune, k);
          DeleteLeavesNoDangling(s, name, noprune, untagged, k);
        }
      }
      if error.Some? {
        return Failed(error.value), untagged, deleted;
      }
      if |refs| + |ids| == 0 {
        return NothingDeleted, untagged, deleted;
      }
      r := Report(refs, ids);
    }

    /** `ByParent`, asked for one image. */
    method HasNoChildren(id: ID) returns (leaf: bool)
      ensures leaf <==> IsLeaf(graph, id)
    {
      var todo := graph.Keys;
      while todo != {}
        invariant todo <= graph.Keys
        invariant forall x :: x in graph.Keys - todo ==> graph[x].parent != id
        decreases todo
      {
        var x :| x in todo;
        if graph[x].parent == id {
          return false;
        }
        todo := todo - {x};
      }
      leaf := true;
    }

    /** The removal of an image without references, and the pruning of its parents. */
    method Remove(id: ID, force: bool, noprune: bool) returns (error: Option<DeleteError>, deleted: seq<ID>)
      requires Acyclic(graph) && id in graph && IsLeaf(graph, id) && Refs(repositories, id) == {}
      modifies this`graph, this`repositories
      ensures (error, deleted) == Removal(old(State()), id, force, noprune)
      ensures graph == Without(old(graph), deleted)
      ensures repositories == old(repositories)
      decreases |graph|, 0
    {
      ghost var s := State();
      var parent := graph[id].parent;
      RemoveLeaf(graph, id);
      graph := graph - {id};
      if parent == "" || noprune {
        WithoutCons(old(graph), id, []);
        WithoutCons(graph, id, []);
        assert [id] + [] == [id];
        return None, [id];
      }
      assert State() == s.(graph := s.graph - {id});
      DeleteIgnoresOtherRefs(State(), repositories, parent, force, noprune);
      var untagged, more;
      error, untagged, more := DeleteHelper(ByID(parent), false, force, noprune);
      assert forall k :: 0 <= k < |untagged| ==> untagged[k] in untagged;
      deleted := [id] + more;
      WithoutCons(old(graph), id, more);
    }
  }

  /** After the untagging only the named image has lost references, and all of them unless one was spared. */
  lemma RefsAfter(s: DeleteSpec.State, name: Name, doomed: seq<Ref>)
    requires var id := Resolve(s, name); name.ByRef? ==> Points(s.repos, name.ref, id)
    requires forall ref :: ref in doomed <==> ref in Doomed(s, name)
    ensures var repos, id := UntagAll(s.repos, doomed), Resolve(s, name);
            && (Refs(repos, id) == {} <==> !(Refs(s.repos, id) > Doomed(s, name)))
            && forall x :: x != id ==> Refs(repos, x) == Refs(s.repos, x)
  {
    var repos, id := UntagAll(s.repos, doomed), Resolve(s, name);
    forall ref, x ensures Points(repos, ref, x) <==> Points(s.repos, ref, x) && ref !in doomed {
      UntagAllPoints(s.repos, doomed, ref, x);
    }
    assert Refs(repos, id) == Refs(s.repos, id) - Doomed(s, name);
    assert Doomed(s, name) <= Refs(s.repos, id);
    forall x | x != id ensures Refs(repos, x) == Refs(s.repos, x) {
      forall ref | ref in doomed ensures !Points(s.repos, ref, x) {}
    }
  }

  /** The two cases of a call, for the stores. */
  lemma CallMeans(s: DeleteSpec.State, name: Name, force: bool, noprune: bool, untagged: seq<Ref>)
    requires Acyclic(s.graph)
    requires forall ref :: ref in untagged <==> ref in Delete(s, name, true, force, noprune).untagged
    ensures var r, id := Delete(s, name, true, force, noprune), Resolve(s, name);
            && (r.error.Some? && r.deleted == [] <==>
                  || id !in s.graph
                  || (name.ByID? && InTwoRepos(s, id) && !force)
                  || (MustAsk(s, name, id) && (id in Busy(s, force) || CutOff(s))))
            && (r.error.Some? && r.deleted == [] ==> untagged == [])
            && (!(r.error.Some? && r.deleted == []) ==>
                  var repos, g := UntagAll(s.repos, untagged), Without(s.graph, r.deleted);
                  && (forall ref, x :: Points(repos, ref, x) <==>
                        Points(s.repos, ref, x) && !(if name.ByRef? then ref == name.ref else Points(s.repos, ref, id)))
                  && (id !in g <==> IsLeaf(s.graph, id) && Refs(repos, id) == {}))
  {
    var r, id := Delete(s, name, true, force, noprune), Resolve(s, name);
    RefusedIff(s, name, id, force, noprune);
    assert untagged != [] ==> untagged[0] in r.untagged;
    if !(r.error.Some? && r.deleted == []) {
      AcceptedDoes(s, name, id, force, noprune);
      var repos := UntagAll(s.repos, untagged);
      forall ref, x
        ensures Points(repos, ref, x) <==>
                Points(s.repos, ref, x) && !(if name.ByRef? then ref == name.ref else Points(s.repos, ref, id))
      {
        UntagAllPoints(s.repos, untagged, ref, x);
      }
      ImageGone(s, id, untagged, r.deleted);
    }
  }

  lemma ImageGone(s: DeleteSpec.State, id: ID, untagged: seq<Ref>, deleted: seq<ID>)
    requires id in s.graph && (deleted != [] ==> deleted[0] == id)
    requires deleted != [] <==> IsLeaf(s.graph, id) && forall ref :: Points(s.repos, ref, id) ==> ref in untagged
    ensures id !in Without(s.graph, deleted) <==> IsLeaf(s.graph, id) && Refs(UntagAll(s.repos, untagged), id) == {}
  {
    var repos := UntagAll(s.repos, untagged);
    forall ref ensures Points(repos, ref, id) <==> Points(s.repos, ref, id) && ref !in untagged {
      UntagAllPoints(s.repos, untagged, ref, id);
    }
    if deleted != [] {
      assert deleted[0] in deleted;
      assert Refs(repos, id) == {};
    } else if IsLeaf(s.graph, id) {
      var ref :| Points(s.repos, ref, id) && ref !in untagged;
      assert ref in Refs(repos, id);
    }
  }

  /** What is left to do once the references are gone. */
  lemma AfterUntag(s: DeleteSpec.State, name: Name, first: bool, force: bool, noprune: bool, doomed: seq<Ref>)
    requires Acyclic(s.graph) && !Decide(s, name, first, force).Refuse?
    requires forall ref :: ref in doomed <==> ref in Doomed(s, name)
    ensures var s', id := s.(repos := UntagAll(s.repos, doomed)), Resolve(s, name);
            Delete(s, name, first, force, noprune) ==
            if Refs(s'.repos, id) == {} && IsLeaf(s.graph, id)
            then var x := Removal(s', id, force, noprune); Outcome(if first then x.0 else None, Doomed(s, name), x.1)
            else Outcome(None, Doomed(s, name), [])
  {
    DeleteCases(s, name, first, force, noprune);
    RefsAfter(s, name, doomed);
    if Decide(s, name, first, force).RemoveToo? {
      RemovalIgnoresOtherRefs(s, UntagAll(s.repos, doomed), Resolve(s, name), force, noprune);
    }
  }
}

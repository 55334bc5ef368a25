/**
  The IDs chosen for the layers of one manifest are pairwise distinct, as long as the hashes have
  no collisions and the base brings no parent of its own.
 */
module PullDistinct {
  import opened ImageConfig
  import opened ImageGraph
  import opened Probing
  import opened PullSpec
  import opened PullGraph

  /** Hashing an ID never gives the strong ID of a configuration. */
  ghost predicate HashesApart(lib: Library) {
    forall x, c :: lib.next(x) != lib.strongID(c)
  }

  ghost predicate NextInjective(lib: Library) {
    forall x, y :: lib.next(x) == lib.next(y) ==> x == y
  }

  ghost predicate CollisionFree(lib: Library) {
    Injective(lib) && NextInjective(lib) && HashesApart(lib)
  }

  ghost predicate Distinct(imgs: seq<Descriptor>) {
    forall i, j :: 0 <= i < j < |imgs| ==> imgs[i].id != imgs[j].id
  }

  /** `id` is among the tries that start from `x`. */
  ghost predicate IsProbe(lib: Library, x: ID, id: ID) {
    exists m: nat :: id == Probe(lib.next, x, m)
  }

  /** A chosen ID was in the graph, or is one of the tries from the strong ID. */
  lemma {:induction false} ChosenOrigin(lib: Library, g: Graph, infos: seq<Descriptor>, i: nat)
    requires Spreads(lib, g, infos) && i < |infos|
    ensures var id := Choose(lib, g, infos).imgs[i].id; id in g || IsProbe(lib, infos[i].id, id)
  {
    var below := Choose(lib, g, infos[1..]);
    var top := ChooseTop(lib, g, infos[0], below).imgs[0];
    assert Choose(lib, g, infos).imgs == [top] + below.imgs;
    if i > 0 {
      ChosenOrigin(lib, g, infos[1..], i - 1);
    } else {
      TopOrigin(lib, g, infos[0], below);
    }
  }

  lemma TopOrigin(lib: Library, g: Graph, d: Descriptor, below: Choice)
    requires SpreadsAt(lib, g, d.id)
    ensures var id := ChooseTop(lib, g, d, below).imgs[0].id; id in g || IsProbe(lib, d.id, id)
  {
    assert d.id == Probe(lib.next, d.id, 0);
  }

  /** Tries from different strong IDs never meet. */
  lemma {:induction false} ProbesApart(lib: Library, c: Fields, d: Fields, m: nat, n: nat)
    requires NextInjective(lib) && HashesApart(lib) && lib.strongID(c) != lib.strongID(d)
    ensures Probe(lib.next, lib.strongID(c), m) != Probe(lib.next, lib.strongID(d), n)
    decreases m
  {
    if m > 0 && n > 0 {
      ProbesApart(lib, c, d, m - 1, n - 1);
    }
  }

  /** Two chosen IDs that are not in the graph differ. */
  lemma NewDistinct(lib: Library, g: Graph, layers: seq<string>, history: seq<string>, infos: seq<Descriptor>, i: nat, j: nat)
    requires Sound(lib) && CollisionFree(lib) && Spreads(lib, g, infos)
    requires infos != [] && Hashed(lib, layers, history, infos) && AllStrong(infos) && PlainBase(lib, history)
    requires i < j < |infos| && Choose(lib, g, infos).imgs[i].id !in g
    ensures Choose(lib, g, infos).imgs[i].id != Choose(lib, g, infos).imgs[j].id
  {
    var x, y := Choose(lib, g, infos).imgs[i].id, Choose(lib, g, infos).imgs[j].id;
    ChosenOrigin(lib, g, infos, i);
    ChosenOrigin(lib, g, infos, j);
    if y !in g {
      assert infos[i] in infos && infos[j] in infos;
      assert Level(lib, layers, history, infos, i) && Level(lib, layers, history, infos, j);
      StrongIDsDistinct(lib, layers, history, infos, i, j);
      var m: nat :| x == Probe(lib.next, infos[i].id, m);
      var n: nat :| y == Probe(lib.next, infos[j].id, n);
      ProbesApart(lib, infos[i].config, infos[j].config, m, n);
    }
  }

  /** The ID of a present layer names one parent, so two positions with it would have the same position below. */
  lemma {:induction false} PresentDistinct(lib: Library, g: Graph, c: seq<Descriptor>, i: nat, j: nat)
    requires i < j < |c| && FreeOrValid(lib, g, c) && forall k :: 0 <= k < |c| ==> c[k].id != ""
    requires forall a, b :: 0 <= a < b < |c| && c[a].id !in g ==> c[a].id != c[b].id
    ensures c[i].id != c[j].id
    decreases |c| - j
  {
    if c[i].id == c[j].id {
      assert FreeOrValidAt(lib, g, c, i) && FreeOrValidAt(lib, g, c, j);
      if j + 1 < |c| {
        PresentDistinct(lib, g, c, i + 1, j + 1);
      }
    }
  }

  lemma ChosenDistinct(lib: Library, g: Graph, layers: seq<string>, history: seq<string>, infos: seq<Descriptor>,
                       c: seq<Descriptor>)
    requires Sound(lib) && CollisionFree(lib) && "" !in g && Spreads(lib, g, infos)
    requires infos != [] && Hashed(lib, layers, history, infos) && AllStrong(infos) && PlainBase(lib, history)
    requires c == Choose(lib, g, infos).imgs
    ensures Distinct(c)
  {
    forall k | 0 <= k < |infos| ensures infos[k].id != "" {
      assert infos[k] in infos;
      StrongIDNotEmpty(lib, layers, history, infos, k);
    }
    ChosenNotEmpty(lib, g, infos);
    ChoiceIsFreeOrValid(lib, g, infos);
    forall a, b | 0 <= a < b < |c| && c[a].id !in g ensures c[a].id != c[b].id {
      NewDistinct(lib, g, layers, history, infos, a, b);
    }
    forall i, j | 0 <= i < j < |c| ensures c[i].id != c[j].id {
      PresentDistinct(lib, g, c, i, j);
    }
  }

  /** Whichever way the descriptors were made, their IDs are distinct. */
  lemma DescriptorsDistinct(lib: Library, g: Graph, layers: seq<string>, history: seq<string>, infos: seq<Descriptor>)
    requires Sound(lib) && CollisionFree(lib) && "" !in g && Spreads(lib, g, infos)
    requires infos != [] && Hashed(lib, layers, history, infos) && AllStrong(infos) && PlainBase(lib, history)
    ensures Distinct(infos) && Distinct(WithParents(Choose(lib, g, infos).imgs))
  {
    var c := Choose(lib, g, infos).imgs;
    ChosenDistinct(lib, g, layers, history, infos, c);
    forall i, j | 0 <= i < j < |infos| ensures infos[i].id != infos[j].id {
      assert infos[i] in infos && infos[j] in infos;
      StrongIDsDistinct(lib, layers, history, infos, i, j);
    }
    forall i | 0 <= i < |c| ensures WithParents(c)[i].id == c[i].id {}
  }
}

/**
  The order in which a v1 push uploads images (`getImageList` in `graph/push_v1.go`): for each
  selected tag, walk up to the first image already listed, reverse the walk, and append it.
 */
module PushListSpec {
  import opened References
  import opened ImageConfig
  import opened ImageGraph

  /** Images without repetition, each after its parent if that is in the graph. */
  ghost predicate ParentsFirst(g: Graph, list: seq<ID>) {
    && (forall i, j :: 0 <= i < j < |list| ==> list[i] != list[j])
    && (forall i :: 0 <= i < |list| ==> ParentBefore(g, list, i))
  }

  predicate ParentBefore(g: Graph, list: seq<ID>, i: nat)
    requires i < |list|
  {
    list[i] in g && (g[list[i]].parent in g ==> g[list[i]].parent in list[..i])
  }

  function Set(list: seq<ID>): set<ID> { set x | x in list }

  /** A list with parents first holds every ancestor of its members. */
  lemma {:induction false} HoldsAncestors(g: Graph, list: seq<ID>, i: nat)
    requires Acyclic(g) && ParentsFirst(g, list) && i < |list|
    ensures list[i] in g && Ancestors(g, list[i]) <= Set(list)
    decreases i
  {
    assert ParentBefore(g, list, i);
    var x := list[i];
    LineageStep(g, x);
    if g[x].parent in g {
      var k :| 0 <= k < i && list[k] == g[x].parent;
      HoldsAncestors(g, list, k);
      assert Lineage(g, x) == [x] + Lineage(g, g[x].parent);
    }
  }

  function Reversed(s: seq<ID>): (r: seq<ID>)
    ensures |r| == |s| && forall k :: 0 <= k < |s| ==> r[k] == s[|s| - 1 - k]
  {
    seq(|s|, k requires 0 <= k < |s| => s[|s| - 1 - k])
  }

  /** `path` is the walk from `id` up to the first image in `list`. */
  ghost predicate IsWalk(g: Graph, id: ID, list: seq<ID>, path: seq<ID>)
    requires Acyclic(g)
  {
    if id !in g then path == []
    else
      var c := Lineage(g, id);
      && path <= c
      && (forall k :: 0 <= k < |path| ==> path[k] !in list)
      && (|path| < |c| ==> c[|path|] in list)
  }

  /** The parent of a walk's image is the next on the walk, or in the list, or not in the graph. */
  lemma WalkParent(g: Graph, id: ID, list: seq<ID>, path: seq<ID>, k: nat)
    requires Acyclic(g) && IsWalk(g, id, list, path) && k < |path|
    ensures path[k] in g
    ensures k + 1 < |path| ==> g[path[k]].parent == path[k + 1]
    ensures k + 1 == |path| ==> g[path[k]].parent !in g || g[path[k]].parent in list
  {
    var c := Lineage(g, id);
    LineageSuffix(g, id, c, k);
    assert c[k] == path[k];
    if k + 1 < |c| {
      assert c[k..][1..][0] == c[k + 1];
    }
  }

  /** Appending a reversed walk keeps parents first. */
  lemma AppendWalk(g: Graph, id: ID, list: seq<ID>, path: seq<ID>)
    requires Acyclic(g) && ParentsFirst(g, list) && IsWalk(g, id, list, path)
    ensures ParentsFirst(g, list + Reversed(path))
  {
    var r := list + Reversed(path);
    var n := |list|;
    forall i, j | 0 <= i < j < |r| ensures r[i] != r[j] {
      if i >= n {
        var c := Lineage(g, id);
        LineageDistinct(g, id, c, n + |path| - 1 - j, n + |path| - 1 - i);
      } else if j >= n {
        assert path[n + |path| - 1 - j] !in list;
      }
    }
    forall i | 0 <= i < |r| ensures ParentBefore(g, r, i) {
      if i < n {
        assert ParentBefore(g, list, i);
        assert r[..i] == list[..i];
      } else {
        var k := n + |path| - 1 - i;
        WalkParent(g, id, list, path, k);
        assert r[i] == path[k];
        if k + 1 < |path| {
          assert r[..i][i - 1] == path[k + 1];
        } else {
          assert r[..i] == list;
        }
      }
    }
  }

  lemma ReversedSet(s: seq<ID>)
    ensures Set(Reversed(s)) == Set(s)
  {
    forall x | x in s ensures x in Reversed(s) {
      var k :| 0 <= k < |s| && s[k] == x;
      assert Reversed(s)[|s| - 1 - k] == x;
    }
  }

  /** A walk and the list it stopped at hold the ancestors of the image it starts from. */
  lemma WalkCovers(g: Graph, id: ID, list: seq<ID>, path: seq<ID>)
    requires Acyclic(g) && ParentsFirst(g, list) && IsWalk(g, id, list, path)
    ensures Set(path) <= Ancestors(g, id) <= Set(path) + Set(list)
  {
    if id in g {
      var c, n := Lineage(g, id), |path|;
      assert c == path + c[n..];
      if n < |c| {
        var i :| 0 <= i < |list| && list[i] == c[n];
        HoldsAncestors(g, list, i);
        LineageSuffix(g, id, c, n);
        LineageUnique(g, c[n], c[n..], Lineage(g, c[n]));
      }
    }
  }

  /** Appending a reversed walk adds exactly the ancestors of the image it starts from. */
  lemma AppendWalkSet(g: Graph, id: ID, list: seq<ID>, path: seq<ID>)
    requires Acyclic(g) && ParentsFirst(g, list) && IsWalk(g, id, list, path)
    ensures Set(list + Reversed(path)) == Set(list) + Ancestors(g, id)
  {
    WalkCovers(g, id, list, path);
    ReversedSet(path);
    assert Set(list + Reversed(path)) == Set(list) + Set(Reversed(path));
  }

  predicate Selected(requested: string, tag: string) {
    (requested == "" || requested == tag) && !IsDigest(tag)
  }

  /** A tag of the repository that is to be pushed: no digest, and the one asked for if one was asked for. */
  predicate Pushed(repo: map<string, ID>, requested: string, tag: string) {
    tag in repo && ':' !in tag && (requested != "" ==> tag == requested)
  }

  /** The images that the selected ones of these tags need. */
  ghost function Wanted(g: Graph, repo: map<string, ID>, requested: string, tags: seq<string>): set<ID>
    requires Acyclic(g)
  {
    set t, x | t in tags && t in repo && Selected(requested, t) && x in Ancestors(g, repo[t]) :: x
  }

  lemma WantedStep(g: Graph, repo: map<string, ID>, requested: string, tags: seq<string>, tag: string)
    requires Acyclic(g) && tag in repo
    ensures Wanted(g, repo, requested, tags + [tag]) ==
            Wanted(g, repo, requested, tags) + if Selected(requested, tag) then Ancestors(g, repo[tag]) else {}
  {
  }

  function TagsOf(repo: map<string, ID>, requested: string, tags: seq<string>, id: ID): seq<string> {
    if tags == [] then []
    else
      var init, t := TagsOf(repo, requested, tags[..|tags| - 1], id), tags[|tags| - 1];
      if t in repo && repo[t] == id && Selected(requested, t) then init + [t] else init
  }

  lemma {:induction false} TagsOfIff(repo: map<string, ID>, requested: string, tags: seq<string>, id: ID, t: string)
    ensures t in TagsOf(repo, requested, tags, id) <==> t in tags && Pushed(repo, requested, t) && repo[t] == id
    decreases |tags|
  {
    if tags != [] {
      TagsOfIff(repo, requested, tags[..|tags| - 1], id, t);
      assert tags == tags[..|tags| - 1] + [tags[|tags| - 1]];
    }
  }

  /** The table lists the selected tags of every image, in the order of iteration. */
  ghost predicate Indexed(repo: map<string, ID>, requested: string, tags: seq<string>, byImage: map<ID, seq<string>>) {
    forall id :: TagsOf(repo, requested, tags, id) == Row(byImage, id)
  }

  function Row(byImage: map<ID, seq<string>>, id: ID): seq<string> {
    if id in byImage then byImage[id] else []
  }

  lemma IndexedStep(repo: map<string, ID>, requested: string, tags: seq<string>, byImage: map<ID, seq<string>>, tag: string)
    requires tag in repo && Indexed(repo, requested, tags, byImage)
    ensures Indexed(repo, requested, tags + [tag],
                    if Selected(requested, tag) then byImage[repo[tag] := Row(byImage, repo[tag]) + [tag]] else byImage)
  {
    var byImage' := if Selected(requested, tag) then byImage[repo[tag] := Row(byImage, repo[tag]) + [tag]] else byImage;
    assert (tags + [tag])[..|tags|] == tags;
    forall id ensures TagsOf(repo, requested, tags + [tag], id) == Row(byImage', id) {
      assert TagsOf(repo, requested, tags, id) == Row(byImage, id);
    }
  }
}

module PushList {
  import opened References
  import opened ImageConfig
  import opened ImageGraph
  import opened PushListSpec

  /** The walk of one tag; it ends without an error where an image is missing. */
  method Walk(g: Graph, id: ID, list: seq<ID>) returns (path: seq<ID>)
    requires Acyclic(g)
    ensures IsWalk(g, id, list, path)
  {
    path := [];
    if id !in g {
      return;
    }
    ghost var c := Lineage(g, id);
    var img := id;
    while true
      invariant |path| < |c| && path == c[..|path|] && img == c[|path|] && img in g
      invariant forall k :: 0 <= k < |path| ==> path[k] !in list
      decreases |c| - |path|
    {
      if img in list {
        return;
      }
      LineageSuffix(g, id, c, |path|);
      assert c[..|path| + 1] == path + [img];
      path := path + [img];
      if g[img].parent !in g {
        return;
      }
      img := g[img].parent;
      LineageInGraph(g, id, c);
    }
  }

  /** The reversal loop. */
  method Reverse(s: seq<ID>) returns (r: seq<ID>)
    ensures r == Reversed(s)
  {
    r := s;
    var i, j := 0, |s| - 1;
    while i < j
      invariant 0 <= i <= j + 1 && i + j == |s| - 1 && |r| == |s|
      invariant forall k :: 0 <= k < i ==> r[k] == s[|s| - 1 - k]
      invariant forall k :: j < k < |s| ==> r[k] == s[|s| - 1 - k]
      invariant forall k :: i <= k <= j ==> r[k] == s[k]
    {
      r := r[i := r[j]][j := r[i]];
      i, j := i + 1, j - 1;
    }
  }

  /**
    `getImageList`, for any iteration order of the tag map: every ancestor-or-self of a selected
    tag's image once, nothing else, parents first; an error when there is none.
   */
  method GetImageList(g: Graph, repo: map<string, ID>, requested: string, order: seq<string>)
    returns (ok: bool, imageList: seq<ID>, tagsByImage: map<ID, seq<string>>)
    requires Acyclic(g)
    requires forall t :: t in order <==> t in repo
    ensures ok <==> Wanted(g, repo, requested, order) != {}
    ensures ParentsFirst(g, imageList) && Set(imageList) == Wanted(g, repo, requested, order)
    ensures if ok then Indexed(repo, requested, order, tagsByImage) else tagsByImage == map[]
    ensures forall x :: x in imageList <==> exists t :: Pushed(repo, requested, t) && x in Ancestors(g, repo[t])
    ensures ok ==> forall id, t :: t in Row(tagsByImage, id) <==> Pushed(repo, requested, t) && repo[t] == id
  {
    imageList, tagsByImage := [], map[];
    for k := 0 to |order|
      invariant ParentsFirst(g, imageList) && Set(imageList) == Wanted(g, repo, requested, order[..k])
      invariant Indexed(repo, requested, order[..k], tagsByImage)
    {
      var tag := order[k];
      assert tag in order;
      var id := repo[tag];
      assert order[..k + 1] == order[..k] + [tag];
      WantedStep(g, repo, requested, order[..k], tag);
      IndexedStep(repo, requested, order[..k], tagsByImage, tag);
      if requested != "" && requested != tag {
        continue;
      }
      if IsDigest(tag) {
        continue;
      }
      tagsByImage := tagsByImage[id := Row(tagsByImage, id) + [tag]];
      var path := Walk(g, id, imageList);
      var forThisTag := Reverse(path);
      AppendWalk(g, id, imageList, path);
      AppendWalkSet(g, id, imageList, path);
      imageList := imageList + forThisTag;
    }
    assert order[..|order|] == order;
    assert forall x :: x in imageList <==> x in Set(imageList);
    ok := |imageList| != 0;
    if ok {
      assert imageList[0] in Set(imageList);
      forall id, t ensures t in Row(tagsByImage, id) <==> Pushed(repo, requested, t) && repo[t] == id {
        TagsOfIff(repo, requested, order, id, t);
      }
    } else {
      tagsByImage := map[];
    }
  }
}

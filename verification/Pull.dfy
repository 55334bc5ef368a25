/** The choice of IDs, as the source makes it in place (`graph/pull_v2.go`). */
module Pull {
  import opened Options
  import opened ImageConfig
  import opened ImageGraph
  import opened Probing
  import opened PullSpec
  import opened PullChoice

  /** `tryNextID`. */
  method TryNextID(lib: Library, g: Graph, imgs: array<Descriptor>, i: nat) returns (ok: bool)
    requires i < imgs.Length
    modifies imgs
    ensures imgs[..] == old(imgs[..])[i := old(imgs[i]).(id := lib.next(old(imgs[i]).id))]
    ensures ok <==> imgs[i].id !in Rejected(lib, g, old(imgs[..]), i)
  {
    ghost var before := imgs[..];
    imgs[i] := imgs[i].(id := lib.next(imgs[i].id));
    ok := true;
    assert ParentID(imgs[..], i) == ParentID(before, i) && StrongParent(imgs[..], i) == StrongParent(before, i);
    if imgs[i].id in g {
      ok := ValidatesAt(lib, g, imgs[i].id, imgs[..], i);
    }
  }

  /** The probing loop of `attemptIDReuse`. */
  method FindID(lib: Library, g: Graph, imgs: array<Descriptor>, i: nat)
    requires i < imgs.Length && imgs[i].id in Rejected(lib, g, imgs[..], i)
    requires Stops(lib.next, imgs[i].id, Rejected(lib, g, imgs[..], i), 0)
    modifies imgs
    ensures var d, r := old(imgs[i]), Rejected(lib, g, old(imgs[..]), i);
            imgs[..] == old(imgs[..])[i := d.(id := Probe(lib.next, d.id, FirstFree(lib.next, d.id, r, 0)))]
  {
    ghost var before, d := imgs[..], imgs[i];
    ghost var r := Rejected(lib, g, before, i);
    ghost var m := FirstFree(lib.next, d.id, r, 0);
    ghost var k := 0;
    while true
      invariant 0 <= k < m
      invariant imgs[..] == before[i := d.(id := Probe(lib.next, d.id, k))]
      decreases m - k
    {
      ghost var cur := imgs[..];
      assert imgs[i] == cur[i];
      assert Rejected(lib, g, cur, i) == r;
      var ok := TryNextID(lib, g, imgs, i);
      assert imgs[i] == imgs[..][i];
      k := k + 1;
      assert imgs[i].id == Probe(lib.next, d.id, k);
      if ok {
        break;
      }
    }
  }

  /** The choice for the positions from `j` on. */
  ghost function ChooseFrom(lib: Library, g: Graph, imgs: seq<Descriptor>, j: nat): (c: Choice)
    requires Spreads(lib, g, imgs) && j <= |imgs|
    ensures |c.imgs| == |imgs| - j
    decreases |imgs| - j
  {
    if j == |imgs| then Choice([], true) else ChooseTop(lib, g, imgs[j], ChooseFrom(lib, g, imgs, j + 1))
  }

  lemma {:induction false} ChooseFromSuffix(lib: Library, g: Graph, imgs: seq<Descriptor>, j: nat)
    requires Spreads(lib, g, imgs) && j <= |imgs|
    ensures ChooseFrom(lib, g, imgs, j) == Choose(lib, g, imgs[j..])
    decreases |imgs| - j
  {
    if j < |imgs| {
      ChooseFromSuffix(lib, g, imgs, j + 1);
      assert imgs[j..][0] == imgs[j] && imgs[j..][1..] == imgs[j + 1..];
    }
  }

  /** The list when the positions from `j` on have been chosen. */
  ghost function Partial(lib: Library, g: Graph, imgs: seq<Descriptor>, j: nat): seq<Descriptor>
    requires Spreads(lib, g, imgs) && j <= |imgs|
  {
    imgs[..j] + ChooseFrom(lib, g, imgs, j).imgs
  }

  lemma PartialStep(lib: Library, g: Graph, imgs: seq<Descriptor>, i: nat)
    requires Spreads(lib, g, imgs) && i < |imgs|
    ensures var s, below := Partial(lib, g, imgs, i + 1), ChooseFrom(lib, g, imgs, i + 1);
            && |s| == |imgs| && s[i] == imgs[i] && s[i + 1..] == below.imgs
            && Partial(lib, g, imgs, i) == s[..i] + ChooseTop(lib, g, imgs[i], below).imgs
  {
  }

  lemma PartialDone(lib: Library, g: Graph, imgs: seq<Descriptor>)
    requires Spreads(lib, g, imgs)
    ensures Partial(lib, g, imgs, 0) == Choose(lib, g, imgs).imgs
    ensures Partial(lib, g, imgs, |imgs|) == imgs
  {
    ChooseFromSuffix(lib, g, imgs, 0);
    assert imgs[0..] == imgs;
  }

  /** `attemptIDReuse`; `migrationFails` is the early return of its v1 migration step. */
  method AttemptIDReuse(lib: Library, g: Graph, imgs: array<Descriptor>, migrationFails: bool)
    requires Spreads(lib, g, imgs[..])
    modifies imgs
    ensures migrationFails ==> imgs[..] == old(imgs[..])
    ensures !migrationFails ==> imgs[..] == WithParents(Choose(lib, g, old(imgs[..])).imgs)
    ensures !migrationFails ==> RightlyChosen(lib, g, old(imgs[..]), imgs[..])
  {
    if migrationFails {
      return;
    }
    ghost var init := imgs[..];
    ReuseIsRight(lib, g, init);
    PartialDone(lib, g, init);
    var n := imgs.Length;
    var continueReuse := true;
    var i := n - 1;
    while i >= 0
      invariant -1 <= i < n
      invariant imgs[..] == Partial(lib, g, init, i + 1)
      invariant continueReuse == ChooseFrom(lib, g, init, i + 1).reuse
    {
      PartialStep(lib, g, init, i);
      ghost var cur := imgs[..];
      assert imgs[i] == cur[i] && imgs[..i] == cur[..i] && imgs[i + 1..] == cur[i + 1..];
      continueReuse := ChooseOne(lib, g, imgs, i, continueReuse, ChooseFrom(lib, g, init, i + 1));
      i := i - 1;
    }
    FixParents(imgs);
  }

  /** One round of the loop of `attemptIDReuse`. */
  method ChooseOne(lib: Library, g: Graph, imgs: array<Descriptor>, i: nat, reuse: bool, ghost below: Choice)
    returns (continueReuse: bool)
    requires i < imgs.Length && SpreadsAt(lib, g, imgs[i].id)
    requires imgs[i + 1..] == below.imgs && reuse == below.reuse
    modifies imgs
    ensures imgs[..] == old(imgs[..i]) + ChooseTop(lib, g, old(imgs[i]), below).imgs
    ensures continueReuse == ChooseTop(lib, g, old(imgs[i]), below).reuse
    ensures imgs[..] == old(imgs[..])[i := old(imgs[i]).(id := imgs[i].id)]
    // a present ID stays if it validates, and is replaced by the first hash of it that is free or validates
    ensures old(imgs[i].id) in g ==>
              var d := old(imgs[i]);
              if ValidatesAt(lib, g, d.id, old(imgs[..]), i) then imgs[i].id == d.id && continueReuse == reuse
              else FirstTry(lib, g, old(imgs[..]), i, d.id, imgs[i].id) && !continueReuse
    // an absent one gives way to the v1 ID exactly while reuse goes on, which is while the v1 IDs validate
    ensures old(imgs[i].id) !in g ==>
              var d := old(imgs[i]);
              && continueReuse == (reuse && ValidatesAt(lib, g, d.compatibilityID, old(imgs[..]), i))
              && imgs[i].id == if continueReuse then d.compatibilityID else d.id
  {
    ghost var before, d := imgs[..], imgs[i];
    SamePosition(lib, g, before, i, below);
    continueReuse := reuse;
    if imgs[i].id in g {
      if !ValidatesAt(lib, g, imgs[i].id, imgs[..], i) {
        continueReuse := false;
        ProbingStops(lib, g, before, i, d.id);
        FindID(lib, g, imgs, i);
        FoundFirst(lib, g, before, i, d.id);
        Replace(before, i, imgs[..][i]);
      }
    } else if continueReuse {
      if !ValidatesAt(lib, g, imgs[i].compatibilityID, imgs[..], i) {
        continueReuse := false;
      } else {
        imgs[i] := imgs[i].(id := imgs[i].compatibilityID);
        Replace(before, i, imgs[i]);
        assert imgs[..] == before[i := imgs[i]];
      }
    }
    Replace(before, i, d);
  }

  lemma FoundFirst(lib: Library, g: Graph, imgs: seq<Descriptor>, i: nat, x: ID)
    requires i < |imgs| && x in Rejected(lib, g, imgs, i) && Stops(lib.next, x, Rejected(lib, g, imgs, i), 0)
    ensures FirstTry(lib, g, imgs, i, x, Probe(lib.next, x, FirstFree(lib.next, x, Rejected(lib, g, imgs, i), 0)))
  {
    var m := FirstFree(lib.next, x, Rejected(lib, g, imgs, i), 0);
    assert Probe(lib.next, x, 0) == x;
    assert TakenUpTo(lib, g, imgs, i, x, m);
  }

  lemma Replace(s: seq<Descriptor>, i: nat, d: Descriptor)
    requires i < |s|
    ensures s[i := d] == s[..i] + ([d] + s[i + 1..])
    ensures d == s[i] ==> s[i := d] == s
  {
  }

  /** A position seen in the whole list and from the top of the list below it. */
  lemma SamePosition(lib: Library, g: Graph, imgs: seq<Descriptor>, i: nat, below: Choice)
    requires i < |imgs| && imgs[i + 1..] == below.imgs
    ensures var cur := [imgs[i]] + below.imgs;
            && (forall id :: ValidatesAt(lib, g, id, imgs, i) == ValidatesAt(lib, g, id, cur, 0))
            && Rejected(lib, g, imgs, i) == Rejected(lib, g, cur, 0)
  {
  }

  /** The last loop of `attemptIDReuse`. */
  method FixParents(imgs: array<Descriptor>)
    modifies imgs
    ensures imgs[..] == WithParents(old(imgs[..]))
  {
    ghost var init := imgs[..];
    for i := 0 to imgs.Length
      invariant forall j {:trigger imgs[j]} :: i <= j < imgs.Length ==> imgs[j] == init[j]
      invariant forall j {:trigger imgs[j]} :: 0 <= j < i ==> imgs[j] == WithParents(init)[j]
    {
      if i == imgs.Length - 1 {
        imgs[i] := imgs[i].(parent := "");
      } else {
        imgs[i] := imgs[i].(parent := imgs[i + 1].id);
      }
    }
  }

  /** `getImageInfos`: hash from the base up, then choose the IDs. */
  method GetImageInfos(lib: Library, g: Graph, layers: seq<string>, history: seq<string>, migrationFails: bool)
    returns (ok: bool, imgs: array<Descriptor>)
    requires |layers| == |history|
    requires var infos := Infos(lib, layers, history); infos.Some? ==> Spreads(lib, g, infos.value)
    ensures fresh(imgs)
    ensures ok <==> Infos(lib, layers, history).Some?
    ensures ok && migrationFails ==> imgs[..] == Infos(lib, layers, history).value
    ensures ok && !migrationFails ==> imgs[..] == Chosen(lib, g, layers, history)
  {
    ok, imgs := HashLayers(lib, layers, history);
    if ok {
      AttemptIDReuse(lib, g, imgs, migrationFails);
    }
  }

  lemma PutFirst(imgs: array<Descriptor>, i: nat, below: seq<Descriptor>)
    requires i < imgs.Length && imgs[i + 1..] == below
    ensures imgs[i..] == [imgs[i]] + below && StrongBelow(imgs[i..]) == imgs[i].strongID
  {
  }

  /** The loop of `getImageInfos`. */
  method HashLayers(lib: Library, layers: seq<string>, history: seq<string>) returns (ok: bool, imgs: array<Descriptor>)
    requires |layers| == |history|
    ensures fresh(imgs)
    ensures ok <==> Infos(lib, layers, history).Some?
    ensures ok ==> imgs[..] == Infos(lib, layers, history).value
  {
    var n := |layers|;
    imgs := new Descriptor[n](i => Descriptor("", "", "", "", map[], ""));
    var parent := "";
    var i := n - 1;
    assert imgs[n..] == [];
    while i >= 0
      invariant -1 <= i < n
      invariant InfosFrom(lib, layers, history, i + 1) == Some(imgs[i + 1..])
      invariant parent == StrongBelow(imgs[i + 1..])
    {
      ghost var below := imgs[i + 1..];
      InfosStep(lib, layers, history, i, below);
      var d := NewDescriptor(lib, history[i], layers[i], parent);
      if d.None? {
        InfosFails(lib, layers, history, i);
        return false, imgs;
      }
      imgs[i] := d.value;
      assert imgs[i + 1..] == below;
      PutFirst(imgs, i, below);
      parent := imgs[i].strongID;
      i := i - 1;
    }
    InfosWhole(lib, layers, history, i + 1);
    assert imgs[i + 1..] == imgs[..];
    ok := true;
  }

  /** The descriptors of the positions from `j` on. */
  ghost function InfosFrom(lib: Library, layers: seq<string>, history: seq<string>, j: nat): Option<seq<Descriptor>>
    requires |layers| == |history| && j <= |layers|
    decreases |layers| - j
  {
    if j == |layers| then Some([])
    else
      var below := InfosFrom(lib, layers, history, j + 1);
      if below.None? then None
      else
        var d := NewDescriptor(lib, history[j], layers[j], StrongBelow(below.value));
        if d.None? then None else Some([d.value] + below.value)
  }

  lemma InfosStep(lib: Library, layers: seq<string>, history: seq<string>, i: nat, below: seq<Descriptor>)
    requires |layers| == |history| && i < |layers| && InfosFrom(lib, layers, history, i + 1) == Some(below)
    ensures var d := NewDescriptor(lib, history[i], layers[i], StrongBelow(below));
            InfosFrom(lib, layers, history, i) == if d.None? then None else Some([d.value] + below)
  {
  }

  lemma {:induction false} InfosFromSuffix(lib: Library, layers: seq<string>, history: seq<string>, j: nat)
    requires |layers| == |history| && j <= |layers|
    ensures InfosFrom(lib, layers, history, j) == Infos(lib, layers[j..], history[j..])
    decreases |layers| - j
  {
    if j < |layers| {
      InfosFromSuffix(lib, layers, history, j + 1);
      assert layers[j..][1..] == layers[j + 1..] && history[j..][1..] == history[j + 1..];
    }
  }

  lemma InfosWhole(lib: Library, layers: seq<string>, history: seq<string>, j: nat)
    requires |layers| == |history| && j == 0
    ensures InfosFrom(lib, layers, history, j) == Infos(lib, layers, history)
  {
    InfosFromSuffix(lib, layers, history, j);
    assert layers[j..] == layers && history[j..] == history;
  }

  lemma {:induction false} InfosFails(lib: Library, layers: seq<string>, history: seq<string>, i: nat)
    requires |layers| == |history| && i < |layers| && InfosFrom(lib, layers, history, i).None?
    ensures Infos(lib, layers, history).None?
    decreases i
  {
    if i == 0 {
      InfosWhole(lib, layers, history, i);
    } else {
      InfosFails(lib, layers, history, i - 1);
    }
  }
}

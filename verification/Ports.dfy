/**
  The port column of `docker ps` (`DisplayablePorts` in `api/common.go`): ports in order of their
  private number are grouped, per protocol and address, into ranges; ports mapped to a different
  number on the host are listed one by one. The printed items are structured values here.
 */
module PortsSpec {
  import opened EnvEntry

  datatype Port = Port(ip: string, private: nat, public: int, typ: string)

  /** A range of consecutive private ports of one key. */
  datatype Range = Range(key: string, first: nat, last: nat)

  /** A port that is bound to an address under another number. */
  predicate IsMapped(p: Port) { p.ip != "" && p.public != p.private }

  function PortKey(p: Port): string {
    if p.ip == "" then p.typ else p.ip + "/" + p.typ
  }

  predicate Sorted(ps: seq<Port>) {
    forall i, j :: 0 <= i < j < |ps| ==> ps[i].private <= ps[j].private
  }

  /** How often the grouped port `x` of key `k` is listed. */
  function CountPorts(ps: seq<Port>, k: string, x: nat): nat {
    if ps == [] then 0
    else
      var p := ps[|ps| - 1];
      CountPorts(ps[..|ps| - 1], k, x) + if !IsMapped(p) && PortKey(p) == k && p.private == x then 1 else 0
  }

  /** How many of the ranges cover the port `x` of key `k`. */
  function CountRanges(rs: seq<Range>, k: string, x: nat): nat {
    if rs == [] then 0 else CountRanges(rs[..|rs| - 1], k, x) + Covers(rs[|rs| - 1], k, x)
  }

  function Covers(r: Range, k: string, x: nat): nat {
    if r.key == k && r.first <= x <= r.last then 1 else 0
  }

  function Mappings(ps: seq<Port>): seq<Port> {
    if ps == [] then []
    else Mappings(ps[..|ps| - 1]) + if IsMapped(ps[|ps| - 1]) then [ps[|ps| - 1]] else []
  }

  /** A grouped port with private number 0 is followed by another port of its key. */
  ghost predicate ZeroOverwritten(ps: seq<Port>) {
    exists i, j :: ZeroBefore(ps, i, j)
  }

  predicate ZeroBefore(ps: seq<Port>, i: int, j: int) {
    && 0 <= i < j < |ps| && !IsMapped(ps[i]) && !IsMapped(ps[j])
    && ps[i].private == 0 && PortKey(ps[i]) == PortKey(ps[j])
  }

  ghost predicate NoDuplicates(ps: seq<Port>) {
    forall i, j :: 0 <= i < j < |ps| && !IsMapped(ps[i]) && !IsMapped(ps[j]) && PortKey(ps[i]) == PortKey(ps[j]) ==>
      ps[i].private != ps[j].private
  }

  /** Two places of the list hold ports that are related. */
  ghost predicate HasPair(ps: seq<Port>, related: (Port, Port) -> bool) {
    exists i, j :: 0 <= i < |ps| && 0 <= j < |ps| && i != j && related(ps[i], ps[j])
  }

  predicate ZeroAndOther(p: Port, q: Port) {
    !IsMapped(p) && !IsMapped(q) && PortKey(p) == PortKey(q) && p.private == 0
  }

  predicate Twins(p: Port, q: Port) {
    !IsMapped(p) && !IsMapped(q) && PortKey(p) == PortKey(q) && p.private == q.private
  }

  /** A grouped port with private number 0 is not the only one of its key. */
  ghost predicate ZeroInCompany(ps: seq<Port>) {
    HasPair(ps, ZeroAndOther)
  }

  lemma ZeroOverwrittenIff(ps: seq<Port>)
    requires Sorted(ps)
    ensures ZeroOverwritten(ps) <==> ZeroInCompany(ps)
  {
    if i, j :| ZeroBefore(ps, i, j) {
      assert ZeroAndOther(ps[i], ps[j]);
    }
    if i, j :| 0 <= i < |ps| && 0 <= j < |ps| && i != j && ZeroAndOther(ps[i], ps[j]) {
      assert if i < j then ZeroBefore(ps, i, j) else ZeroBefore(ps, j, i);
    }
  }

  lemma NoDuplicatesIff(ps: seq<Port>)
    ensures NoDuplicates(ps) <==> !HasPair(ps, Twins)
  {
    if i, j :| 0 <= i < |ps| && 0 <= j < |ps| && i != j && Twins(ps[i], ps[j]) {
      assert if i < j then ps[i].private == ps[j].private else ps[j].private == ps[i].private;
    }
    if i, j :| 0 <= i < j < |ps| && !IsMapped(ps[i]) && !IsMapped(ps[j]) && PortKey(ps[i]) == PortKey(ps[j])
               && ps[i].private == ps[j].private {
      assert Twins(ps[i], ps[j]);
    }
  }

  /** At least one port lies between any two ranges of a key. */
  ghost predicate Separate(rs: seq<Range>) {
    forall i, j :: 0 <= i < j < |rs| && rs[i].key == rs[j].key ==> rs[i].last + 1 < rs[j].first || rs[j].last + 1 < rs[i].first
  }

  // ---------- what a group prints ----------

  /** The text up to the first slash and the text from there to the next (`strings.Split`, first two parts). */
  function FormGroup(key: string): (string, string) {
    var i := IndexOf(key, '/');
    if i < 0 then ("", key)
    else
      var rest := key[i + 1..];
      var j := IndexOf(rest, '/');
      (key[..i], if j < 0 then rest else rest[..j])
  }

  /** A printed group shows the address and protocol of its ports. */
  lemma GroupShowsPort(p: Port)
    requires '/' !in p.ip && '/' !in p.typ
    ensures FormGroup(PortKey(p)) == (p.ip, p.typ)
  {
    if p.ip != "" {
      var key := PortKey(p);
      assert key[|p.ip|] == '/' && key[..|p.ip|] == p.ip;
      assert IndexOf(key, '/') == |p.ip|;
      assert key[|p.ip| + 1..] == p.typ;
    }
  }

  // ---------- the grouping loop ----------

  /** Finished ranges, and the open group of every key: `firstInGroupMap` and `lastInGroupMap`. */
  datatype Groups = Groups(ranges: seq<Range>, first: map<string, nat>, last: map<string, nat>)

  /** The open group of key `k`, if any, covers `x`. */
  function Open(g: Groups, k: string, x: nat): nat {
    if k in g.first && k in g.last && g.first[k] <= x <= g.last[k] then 1 else 0
  }

  function Total(g: Groups, k: string, x: nat): nat {
    CountRanges(g.ranges, k, x) + Open(g, k, x)
  }

  predicate Started(g: Groups, k: string) {
    k in g.first && g.first[k] != 0
  }

  /** One grouped port. The first of a group is recognised by the zero that a missing map entry reads as. */
  function Add(g: Groups, k: string, x: nat): Groups {
    if !Started(g, k) || k !in g.last then g.(first := g.first[k := x], last := g.last[k := x])
    else if x == g.last[k] + 1 then g.(last := g.last[k := x])
    else Groups(g.ranges + [Range(k, g.first[k], g.last[k])], g.first[k := x], g.last[k := x])
  }

  function AddPort(g: Groups, p: Port): Groups {
    if IsMapped(p) then g else Add(g, PortKey(p), p.private)
  }

  /** The port `x` of key `k` is among the grouped ones. */
  predicate Listed(ps: seq<Port>, k: string, x: nat) {
    exists i :: 0 <= i < |ps| && !IsMapped(ps[i]) && PortKey(ps[i]) == k && ps[i].private == x
  }

  /** What the loop knows after the ports `ps`. */
  ghost predicate Grouped(ps: seq<Port>, g: Groups) {
    Shaped(ps, g) && ZeroOpen(ps, g)
  }

  ghost predicate Shaped(ps: seq<Port>, g: Groups) {
    && g.first.Keys == g.last.Keys
    && (forall k :: k in g.first ==> ShapedAt(ps, g, k))
  }

  predicate ShapedAt(ps: seq<Port>, g: Groups, k: string)
    requires k in g.first && k in g.last
  {
    Listed(ps, k, g.last[k]) && g.first[k] <= g.last[k] && (g.first[k] == 0 ==> g.last[k] == 0)
  }

  ghost predicate ZeroOpen(ps: seq<Port>, g: Groups) {
    forall k :: Listed(ps, k, 0) && !ZeroOverwritten(ps) ==> k in g.first && g.first[k] == 0
  }

  /** Every positive port is covered as often as it is listed; port zero too unless one was overwritten. */
  ghost predicate Conserved(ps: seq<Port>, g: Groups) {
    && (forall k, x: nat :: x > 0 ==> Deficit(ps, g, k, x) == 0)
    && (forall k :: Deficit(ps, g, k, 0) >= 0)
    && (ZeroOverwritten(ps) <==> exists k :: Deficit(ps, g, k, 0) != 0)
  }

  /** Finished ranges are apart from each other and lie below the open group of their key. */
  ghost predicate Apart(g: Groups) {
    && Separate(g.ranges)
    && (forall i :: 0 <= i < |g.ranges| ==> Below(g, g.ranges[i]))
  }

  predicate Below(g: Groups, r: Range) {
    r.key in g.first && r.last + 1 < g.first[r.key]
  }

  lemma CountRangesAppend(rs: seq<Range>, r: Range, k: string, x: nat)
    ensures CountRanges(rs + [r], k, x) == CountRanges(rs, k, x) + Covers(r, k, x)
  {
    assert (rs + [r])[..|rs|] == rs;
  }

  /** Adding a port covers it once more, and uncovers a zero that was the whole group. */
  lemma AddTotal(g: Groups, k: string, x: nat, k': string, x': nat)
    requires g.first.Keys == g.last.Keys
    requires k in g.first ==> g.first[k] <= g.last[k] <= x && (g.first[k] == 0 ==> g.last[k] == 0)
    ensures Total(Add(g, k, x), k', x') ==
            Total(g, k', x') + (if k' == k && x' == x then 1 else 0)
                             - (if k' == k && x' == 0 && k in g.first && g.first[k] == 0 then 1 else 0)
  {
    if k in g.first {
      CountRangesAppend(g.ranges, Range(k, g.first[k], g.last[k]), k', x');
    }
  }

  lemma SnocCount(ps: seq<Port>, p: Port, k: string, x: nat)
    ensures CountPorts(ps + [p], k, x) ==
            CountPorts(ps, k, x) + if !IsMapped(p) && PortKey(p) == k && p.private == x then 1 else 0
  {
  }

  lemma SnocListed(ps: seq<Port>, p: Port, k: string, x: nat)
    ensures Listed(ps + [p], k, x) <==> Listed(ps, k, x) || (!IsMapped(p) && PortKey(p) == k && p.private == x)
  {
    var s := ps + [p];
    assert s[|ps|] == p && forall i :: 0 <= i < |ps| ==> s[i] == ps[i];
    if Listed(ps, k, x) {
      var i :| 0 <= i < |ps| && !IsMapped(ps[i]) && PortKey(ps[i]) == k && ps[i].private == x;
      assert s[i] == ps[i];
    }
  }

  lemma SnocOverwritten(ps: seq<Port>, p: Port)
    ensures ZeroOverwritten(ps + [p]) <==> ZeroOverwritten(ps) || (!IsMapped(p) && Listed(ps, PortKey(p), 0))
  {
    var s := ps + [p];
    if i, j :| ZeroBefore(ps, i, j) {
      assert ZeroBefore(s, i, j);
    }
    if !IsMapped(p) && Listed(ps, PortKey(p), 0) {
      var i :| 0 <= i < |ps| && !IsMapped(ps[i]) && PortKey(ps[i]) == PortKey(p) && ps[i].private == 0;
      assert ZeroBefore(s, i, |ps|);
    }
    if i, j :| ZeroBefore(s, i, j) {
      if j < |ps| {
        assert ZeroBefore(ps, i, j);
      } else {
        assert ps[i] == s[i];
      }
    }
  }

  /** In sorted order no listed port is above the next one. */
  lemma ListedBelow(ps: seq<Port>, p: Port, k: string, x: nat)
    requires Sorted(ps + [p]) && Listed(ps, k, x)
    ensures x <= p.private
    ensures NoDuplicates(ps + [p]) && !IsMapped(p) && PortKey(p) == k ==> x < p.private
  {
    var i :| 0 <= i < |ps| && !IsMapped(ps[i]) && PortKey(ps[i]) == k && ps[i].private == x;
    assert (ps + [p])[i] == ps[i] && (ps + [p])[|ps|] == p;
  }

  lemma StepShaped(ps: seq<Port>, p: Port, g: Groups)
    requires Shaped(ps, g) && Sorted(ps + [p])
    ensures Shaped(ps + [p], AddPort(g, p))
  {
    var g' := AddPort(g, p);
    forall k | k in g'.first ensures ShapedAt(ps + [p], g', k) {
      StepShapedAt(ps, p, g, k);
    }
  }

  lemma StepShapedAt(ps: seq<Port>, p: Port, g: Groups, k: string)
    requires Shaped(ps, g) && Sorted(ps + [p]) && k in AddPort(g, p).first
    ensures k in AddPort(g, p).last && ShapedAt(ps + [p], AddPort(g, p), k)
  {
    if k in g.first {
      assert ShapedAt(ps, g, k);
      ListedBelow(ps, p, k, g.last[k]);
    }
    SnocListed(ps, p, k, AddPort(g, p).last[k]);
  }

  lemma StepZeroOpen(ps: seq<Port>, p: Port, g: Groups)
    requires Shaped(ps, g) && ZeroOpen(ps, g)
    ensures ZeroOpen(ps + [p], AddPort(g, p))
  {
    var s, g' := ps + [p], AddPort(g, p);
    SnocOverwritten(ps, p);
    forall k | Listed(s, k, 0) && !ZeroOverwritten(s) ensures k in g'.first && g'.first[k] == 0 {
      SnocListed(ps, p, k, 0);
      AddZeroOpen(g, p, k, Listed(ps, k, 0));
    }
  }

  /** A lone zero stays the open group of its key while no other port of the key comes, and a new one becomes it. */
  lemma AddZeroOpen(g: Groups, p: Port, k: string, listed: bool)
    requires listed ==> k in g.first && g.first[k] == 0 && (IsMapped(p) || PortKey(p) != k)
    requires !listed ==> !IsMapped(p) && PortKey(p) == k && p.private == 0
    ensures k in AddPort(g, p).first && AddPort(g, p).first[k] == 0
  {
  }

  lemma StepGrouped(ps: seq<Port>, p: Port, g: Groups)
    requires Grouped(ps, g) && Sorted(ps + [p])
    ensures Grouped(ps + [p], AddPort(g, p))
  {
    StepShaped(ps, p, g);
    StepZeroOpen(ps, p, g);
  }

  /** The open group of the next port's key is a lone zero, which that port will overwrite. */
  predicate Overwrites(g: Groups, p: Port) {
    !IsMapped(p) && PortKey(p) in g.first && g.first[PortKey(p)] == 0
  }

  /** One port changes listing and coverage alike, but for the zero that it overwrites. */
  lemma StepCount(ps: seq<Port>, p: Port, g: Groups, k: string, x: nat)
    requires Shaped(ps, g) && Sorted(ps + [p])
    ensures Deficit(ps + [p], AddPort(g, p), k, x) ==
            Deficit(ps, g, k, x) + if Overwrites(g, p) && k == PortKey(p) && x == 0 then 1 else 0
  {
    SnocCount(ps, p, k, x);
    if !IsMapped(p) {
      var key := PortKey(p);
      if key in g.first {
        assert ShapedAt(ps, g, key);
        ListedBelow(ps, p, key, g.last[key]);
      }
      AddTotal(g, key, p.private, k, x);
    }
  }

  /** A port overwrites a zero exactly when it makes the list one with an overwritten zero. */
  lemma OverwritesIff(ps: seq<Port>, p: Port, g: Groups)
    requires Grouped(ps, g)
    ensures ZeroOverwritten(ps + [p]) <==> ZeroOverwritten(ps) || Overwrites(g, p)
  {
    SnocOverwritten(ps, p);
    if Overwrites(g, p) {
      assert ShapedAt(ps, g, PortKey(p));
    }
  }

  /** How much less the ranges cover than is listed. */
  function Deficit(ps: seq<Port>, g: Groups, k: string, x: nat): int {
    CountPorts(ps, k, x) - Total(g, k, x)
  }

  lemma StepConserved(ps: seq<Port>, p: Port, g: Groups)
    requires Grouped(ps, g) && Conserved(ps, g) && Sorted(ps + [p])
    ensures Conserved(ps + [p], AddPort(g, p))
  {
    var s, g' := ps + [p], AddPort(g, p);
    OverwritesIff(ps, p, g);
    forall k, x: nat
      ensures Deficit(s, g', k, x) == Deficit(ps, g, k, x) + if Overwrites(g, p) && k == PortKey(p) && x == 0 then 1 else 0
    {
      StepCount(ps, p, g, k, x);
    }
    DeficitStep(ps, g, s, g', Overwrites(g, p), PortKey(p));
  }

  lemma DeficitStep(ps: seq<Port>, g: Groups, s: seq<Port>, g': Groups, overwrites: bool, key: string)
    requires Conserved(ps, g) && (ZeroOverwritten(s) <==> ZeroOverwritten(ps) || overwrites)
    requires forall k, x: nat ::
      Deficit(s, g', k, x) == Deficit(ps, g, k, x) + if overwrites && k == key && x == 0 then 1 else 0
    ensures Conserved(s, g')
  {
    if k :| Deficit(ps, g, k, 0) != 0 {
      assert Deficit(s, g', k, 0) != 0;
    }
    if overwrites {
      assert Deficit(s, g', key, 0) != 0;
    }
    if k :| Deficit(s, g', k, 0) != 0 {
      assert Deficit(ps, g, k, 0) != 0 || (overwrites && k == key);
    }
  }

  lemma StepApart(ps: seq<Port>, p: Port, g: Groups)
    requires Grouped(ps, g) && Apart(g) && Sorted(ps + [p]) && NoDuplicates(ps + [p])
    ensures Apart(AddPort(g, p))
  {
    var key := PortKey(p);
    if !IsMapped(p) && key in g.first {
      assert ShapedAt(ps, g, key);
      ListedBelow(ps, p, key, g.last[key]);
    }
  }

  // ---------- closing the open groups ----------

  /** The open groups of the keys not in `todo` have been appended to the finished ranges. */
  ghost predicate Closing(g: Groups, rs: seq<Range>, todo: set<string>) {
    forall k, x: nat :: CountRanges(rs, k, x) == CountRanges(g.ranges, k, x) + if k in todo then 0 else Open(g, k, x)
  }

  lemma CloseStep(g: Groups, rs: seq<Range>, todo: set<string>, k: string)
    requires g.first.Keys == g.last.Keys && k in todo && k in g.first && Closing(g, rs, todo)
    ensures Closing(g, rs + [Range(k, g.first[k], g.last[k])], todo - {k})
  {
  }

  /** While groups are being closed: the ranges are apart, and those of keys still open lie below their group. */
  ghost predicate ApartWith(g: Groups, rs: seq<Range>, todo: set<string>) {
    && Separate(rs)
    && (forall i :: 0 <= i < |rs| && rs[i].key in todo ==> Below(g, rs[i]))
  }

  lemma CloseApart(g: Groups, rs: seq<Range>, todo: set<string>, k: string)
    requires k in todo && k in g.first && k in g.last && ApartWith(g, rs, todo)
    ensures ApartWith(g, rs + [Range(k, g.first[k], g.last[k])], todo - {k})
  {
  }
}

module Ports {
  import opened PortsSpec

  /** What holds after the first `n` ports of a sorted list. */
  ghost predicate LoopState(ports: seq<Port>, n: nat, g: Groups)
    requires n <= |ports|
  {
    Grouped(ports[..n], g) && Conserved(ports[..n], g) && (NoDuplicates(ports) ==> Apart(g))
  }

  lemma LoopStep(ports: seq<Port>, n: nat, g: Groups)
    requires n < |ports| && Sorted(ports) && LoopState(ports, n, g)
    ensures LoopState(ports, n + 1, AddPort(g, ports[n]))
  {
    var ps, p := ports[..n], ports[n];
    assert ports[..n + 1] == ps + [p];
    StepGrouped(ps, p, g);
    StepConserved(ps, p, g);
    if NoDuplicates(ports) {
      StepApart(ps, p, g);
    }
  }

  /** The part of the loop body that groups a port. */
  method GroupOne(g: Groups, portKey: string, current: nat) returns (g': Groups)
    requires g.first.Keys == g.last.Keys
    ensures g' == Add(g, portKey, current)
  {
    var first := if portKey in g.first then g.first[portKey] else 0;
    var last := if portKey in g.last then g.last[portKey] else 0;
    if first == 0 {
      return Groups(g.ranges, g.first[portKey := current], g.last[portKey := current]);
    }
    if current == last + 1 {
      return Groups(g.ranges, g.first, g.last[portKey := current]);
    }
    g' := Groups(g.ranges + [Range(portKey, first, last)], g.first[portKey := current], g.last[portKey := current]);
  }

  lemma MappingsStep(ports: seq<Port>, n: nat)
    requires n < |ports|
    ensures Mappings(ports[..n + 1]) == Mappings(ports[..n]) + if IsMapped(ports[n]) then [ports[n]] else []
  {
    assert ports[..n + 1][..n] == ports[..n];
  }

  /** The grouping loop of `DisplayablePorts`. */
  method GroupPorts(ports: seq<Port>) returns (g: Groups, hostMappings: seq<Port>)
    requires Sorted(ports)
    ensures LoopState(ports, |ports|, g)
    ensures hostMappings == Mappings(ports)
  {
    g, hostMappings := Groups([], map[], map[]), [];
    for n := 0 to |ports|
      invariant LoopState(ports, n, g)
      invariant hostMappings == Mappings(ports[..n])
    {
      var port := ports[n];
      LoopStep(ports, n, g);
      MappingsStep(ports, n);
      if port.ip != "" && port.public != port.private {
        hostMappings := hostMappings + [port];
        continue;
      }
      g := GroupOne(g, if port.ip != "" then port.ip + "/" + port.typ else port.typ, port.private);
    }
    assert ports[..|ports|] == ports;
  }

  lemma InsertSorted(s: seq<Port>, i: nat, p: Port)
    requires i <= |s| && Sorted(s)
    requires forall j :: 0 <= j < i ==> s[j].private <= p.private
    requires i < |s| ==> p.private <= s[i].private
    ensures Sorted(s[..i] + [p] + s[i..])
    ensures multiset(s[..i] + [p] + s[i..]) == multiset(s) + multiset{p}
  {
    assert s == s[..i] + s[i..];
  }

  method FindPlace(s: seq<Port>, p: Port) returns (i: nat)
    ensures i <= |s| && (forall j :: 0 <= j < i ==> s[j].private <= p.private)
    ensures i < |s| ==> p.private <= s[i].private
  {
    i := 0;
    while i < |s| && s[i].private <= p.private
      invariant 0 <= i <= |s|
      invariant forall j :: 0 <= j < i ==> s[j].private <= p.private
    {
      i := i + 1;
    }
  }

  /** The sort by private port; equal ports may come in any order. */
  method SortPorts(ports: seq<Port>) returns (sorted: seq<Port>)
    ensures Sorted(sorted) && multiset(sorted) == multiset(ports)
  {
    sorted := [];
    for n := 0 to |ports|
      invariant Sorted(sorted) && multiset(sorted) == multiset(ports[..n])
    {
      var p := ports[n];
      assert ports[..n + 1] == ports[..n] + [p];
      var i := FindPlace(sorted, p);
      InsertSorted(sorted, i, p);
      sorted := sorted[..i] + [p] + sorted[i..];
    }
    assert ports[..|ports|] == ports;
  }

  /**
    `DisplayablePorts`: the ranges cover every grouped port as often as it is listed, for port
    zero if and only if none has company in its group; without duplicates no two ranges of a key
    touch or overlap; and the host mappings are all there, in order of their private ports.
   */
  method DisplayablePorts(ports: seq<Port>) returns (ranges: seq<Range>, hostMappings: seq<Port>)
    ensures forall k, x: nat :: x > 0 ==> CountRanges(ranges, k, x) == CountPorts(ports, k, x)
    ensures (forall k :: CountRanges(ranges, k, 0) == CountPorts(ports, k, 0)) <==> !ZeroInCompany(ports)
    ensures NoDuplicates(ports) ==> Separate(ranges)
    ensures Sorted(hostMappings)
    ensures forall p: Port :: multiset(hostMappings)[p] == if p.ip != "" && p.public != p.private then multiset(ports)[p] else 0
  {
    var sorted := SortPorts(ports);
    SortingKeeps(ports, sorted);
    var g;
    g, hostMappings := GroupPorts(sorted);
    ranges := CloseGroups(g, NoDuplicates(sorted));
    assert sorted[..|sorted|] == sorted;
    forall k, x: nat ensures CountPorts(sorted, k, x) == CountPorts(ports, k, x) {
      CountPermutation(sorted, ports, k, x);
    }
    forall k, x: nat | x > 0 ensures CountRanges(ranges, k, x) == CountPorts(ports, k, x) {
      assert Deficit(sorted, g, k, x) == 0;
    }
    ZeroIff(ports, sorted, g, ranges);
    forall p: Port ensures multiset(hostMappings)[p] == if IsMapped(p) then multiset(ports)[p] else 0 {
      MappingsCount(ports, p);
    }
  }

  lemma ZeroIff(ports: seq<Port>, sorted: seq<Port>, g: Groups, ranges: seq<Range>)
    requires Conserved(sorted, g)
    requires forall k :: CountRanges(ranges, k, 0) == Total(g, k, 0)
    requires forall k :: CountPorts(sorted, k, 0) == CountPorts(ports, k, 0)
    ensures (forall k :: CountRanges(ranges, k, 0) == CountPorts(ports, k, 0)) <==> !ZeroOverwritten(sorted)
  {
    forall k ensures Deficit(sorted, g, k, 0) == CountPorts(ports, k, 0) - CountRanges(ranges, k, 0) {}
    if k :| Deficit(sorted, g, k, 0) != 0 {
      assert CountRanges(ranges, k, 0) != CountPorts(ports, k, 0);
    } else {
      forall k ensures CountRanges(ranges, k, 0) == CountPorts(ports, k, 0) {
        assert Deficit(sorted, g, k, 0) == 0;
      }
    }
  }

  /** The last loop, over the open groups in any order. */
  method CloseGroups(g: Groups, ghost apart: bool) returns (ranges: seq<Range>)
    requires g.first.Keys == g.last.Keys && (apart ==> Apart(g))
    ensures forall k, x: nat :: CountRanges(ranges, k, x) == Total(g, k, x)
    ensures apart ==> Separate(ranges)
  {
    ranges := g.ranges;
    var todo := g.first.Keys;
    while todo != {}
      invariant todo <= g.first.Keys && Closing(g, ranges, todo)
      invariant apart ==> ApartWith(g, ranges, todo)
      decreases todo
    {
      var k :| k in todo;
      CloseStep(g, ranges, todo, k);
      if apart {
        CloseApart(g, ranges, todo, k);
      }
      ranges := ranges + [Range(k, g.first[k], g.last[k])];
      todo := todo - {k};
    }
  }

  lemma {:induction false} CountConcat(a: seq<Port>, b: seq<Port>, k: string, x: nat)
    ensures CountPorts(a + b, k, x) == CountPorts(a, k, x) + CountPorts(b, k, x)
    decreases |b|
  {
    if b == [] {
      assert a + b == a;
    } else {
      assert (a + b)[..|a + b| - 1] == a + b[..|b| - 1];
      CountConcat(a, b[..|b| - 1], k, x);
    }
  }

  lemma RemoveSame(a: seq<Port>, b: seq<Port>, i: nat)
    requires a != [] && multiset(a) == multiset(b) && i < |b| && b[i] == a[|a| - 1]
    ensures multiset(a[..|a| - 1]) == multiset(b[..i] + b[i + 1..])
  {
    var e := multiset{b[i]};
    assert a == a[..|a| - 1] + [a[|a| - 1]];
    assert b == b[..i] + [b[i]] + b[i + 1..];
    assert multiset(a[..|a| - 1]) == multiset(a) - e;
    assert multiset(b[..i] + b[i + 1..]) == multiset(b) - e;
  }

  lemma CountMiddle(b: seq<Port>, i: nat, k: string, x: nat)
    requires i < |b|
    ensures CountPorts(b, k, x) == CountPorts(b[..i] + b[i + 1..], k, x) + CountPorts([b[i]], k, x)
  {
    var pre, e, post := b[..i], [b[i]], b[i + 1..];
    assert b == pre + (e + post);
    CountConcat(pre, e + post, k, x);
    CountConcat(e, post, k, x);
    CountConcat(pre, post, k, x);
  }

  /** Sorting does not change how often a port is listed. */
  lemma {:induction false} CountPermutation(a: seq<Port>, b: seq<Port>, k: string, x: nat)
    requires multiset(a) == multiset(b)
    ensures CountPorts(a, k, x) == CountPorts(b, k, x)
    decreases |a|
  {
    if a == [] {
      assert |multiset(b)| == 0;
    } else {
      var n := |a| - 1;
      assert a[n] in multiset(b);
      var i :| 0 <= i < |b| && b[i] == a[n];
      RemoveSame(a, b, i);
      CountMiddle(a, n, k, x);
      CountMiddle(b, i, k, x);
      assert a[..n] + a[n + 1..] == a[..n];
      CountPermutation(a[..n], b[..i] + b[i + 1..], k, x);
    }
  }

  // ---------- the conditions do not depend on the order ----------

  lemma TwoPlaces(ps: seq<Port>, i: nat, j: nat)
    requires i < |ps| && j < |ps| && i != j && ps[i] == ps[j]
    ensures multiset(ps)[ps[i]] >= 2
  {
    var a, b := if i < j then i else j, if i < j then j else i;
    assert ps == ps[..a] + [ps[a]] + ps[a + 1..b] + [ps[b]] + ps[b + 1..];
  }

  lemma FindTwo(ps: seq<Port>, p: Port) returns (i: nat, j: nat)
    requires multiset(ps)[p] >= 2
    ensures i < |ps| && j < |ps| && i != j && ps[i] == p && ps[j] == p
  {
    assert p in multiset(ps);
    i :| i < |ps| && ps[i] == p;
    assert ps == ps[..i] + [p] + ps[i + 1..];
    assert multiset(ps) == multiset(ps[..i]) + multiset{p} + multiset(ps[i + 1..]);
    if p in multiset(ps[..i]) {
      j :| j < i && ps[..i][j] == p;
    } else {
      assert p in multiset(ps[i + 1..]);
      var k: nat :| k < |ps[i + 1..]| && ps[i + 1..][k] == p;
      j := i + 1 + k;
    }
  }

  lemma PairPermutation(a: seq<Port>, b: seq<Port>, related: (Port, Port) -> bool)
    requires multiset(a) == multiset(b) && HasPair(a, related)
    ensures HasPair(b, related)
  {
    var i, j :| 0 <= i < |a| && 0 <= j < |a| && i != j && related(a[i], a[j]);
    var x: nat, y: nat;
    if a[i] == a[j] {
      TwoPlaces(a, i, j);
      x, y := FindTwo(b, a[i]);
    } else {
      assert a[i] in multiset(b) && a[j] in multiset(b);
      x :| x < |b| && b[x] == a[i];
      y :| y < |b| && b[y] == a[j];
    }
    assert related(b[x], b[y]);
  }

  lemma {:induction false} MappingsCount(ps: seq<Port>, p: Port)
    ensures multiset(Mappings(ps))[p] == if IsMapped(p) then multiset(ps)[p] else 0
  {
    if ps != [] {
      var init, last := ps[..|ps| - 1], ps[|ps| - 1];
      MappingsCount(init, p);
      assert ps == init + [last];
    }
  }

  lemma {:induction false} MappingsSorted(ps: seq<Port>)
    requires Sorted(ps)
    ensures Sorted(Mappings(ps)) && forall i :: 0 <= i < |Mappings(ps)| ==> Mappings(ps)[i].private <= ps[|ps| - 1].private
  {
    if ps != [] {
      MappingsSorted(ps[..|ps| - 1]);
    }
  }

  /** Sorting keeps each of the conditions, and the host mappings but for their order. */
  lemma SortingKeeps(ports: seq<Port>, sorted: seq<Port>)
    requires Sorted(sorted) && multiset(sorted) == multiset(ports)
    ensures ZeroOverwritten(sorted) <==> ZeroInCompany(ports)
    ensures NoDuplicates(sorted) <==> NoDuplicates(ports)
    ensures Sorted(Mappings(sorted)) && multiset(Mappings(sorted)) == multiset(Mappings(ports))
  {
    ZeroOverwrittenIff(sorted);
    NoDuplicatesIff(sorted);
    NoDuplicatesIff(ports);
    if HasPair(sorted, ZeroAndOther) { PairPermutation(sorted, ports, ZeroAndOther); }
    if HasPair(ports, ZeroAndOther) { PairPermutation(ports, sorted, ZeroAndOther); }
    if HasPair(sorted, Twins) { PairPermutation(sorted, ports, Twins); }
    if HasPair(ports, Twins) { PairPermutation(ports, sorted, Twins); }
    MappingsSorted(sorted);
    forall p ensures multiset(Mappings(sorted))[p] == multiset(Mappings(ports))[p] {
      MappingsCount(sorted, p);
      MappingsCount(ports, p);
    }
  }

  /** Ports 0 and 1 of one key: the group of port 0 is overwritten, and only port 1 is left. */
  lemma ZeroLostExample()
    ensures var zero, one := Port("", 0, 0, "tcp"), Port("", 1, 0, "tcp");
            && ZeroInCompany([one, zero])
            && AddPort(AddPort(Groups([], map[], map[]), zero), one) == Groups([], map["tcp" := 1], map["tcp" := 1])
  {
    var zero, one := Port("", 0, 0, "tcp"), Port("", 1, 0, "tcp");
    assert ZeroAndOther([one, zero][1], [one, zero][0]);
    assert AddPort(Groups([], map[], map[]), zero) == Groups([], map["tcp" := 0], map["tcp" := 0]);
  }
}

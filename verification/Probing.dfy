/**
  The probing loop of a pull (`graph/pull_v2.go`): from an ID that is taken by the wrong
  content, hash until an ID outside the set of rejected ones turns up.
 */
module Probing {
  import opened ImageConfig

  /** The ID after `k` applications of the hash. */
  function Probe(next: ID -> ID, x: ID, k: nat): ID {
    if k == 0 then x else next(Probe(next, x, k - 1))
  }

  function Probes(next: ID -> ID, x: ID, n: nat): (s: seq<ID>)
    ensures |s| == n && forall k :: 0 <= k < n ==> s[k] == Probe(next, x, k)
  {
    if n == 0 then [] else Probes(next, x, n - 1) + [Probe(next, x, n - 1)]
  }

  /** More places than values: two places hold the same value. */
  lemma {:induction false} Pigeonhole(s: seq<ID>, r: set<ID>)
    requires |s| > |r| && forall k :: 0 <= k < |s| ==> s[k] in r
    ensures exists i, j :: 0 <= i < j < |s| && s[i] == s[j]
    decreases |s|
  {
    var x := s[|s| - 1];
    var init := s[..|s| - 1];
    if x in init {
      var i :| 0 <= i < |init| && init[i] == x;
      assert s[i] == s[|s| - 1];
    } else {
      forall k | 0 <= k < |init| ensures init[k] in r - {x} {
        assert s[k] in r;
      }
      Pigeonhole(init, r - {x});
      var i, j :| 0 <= i < j < |init| && init[i] == init[j];
      assert s[i] == s[j];
    }
  }

  lemma {:induction false} Shift(next: ID -> ID, x: ID, i: nat, j: nat, d: nat)
    requires Probe(next, x, i) == Probe(next, x, j)
    ensures Probe(next, x, i + d) == Probe(next, x, j + d)
  {
    if d > 0 {
      Shift(next, x, i, j, d - 1);
    }
  }

  /** After a repeat nothing new turns up. */
  lemma {:induction false} CycleStays(next: ID -> ID, x: ID, i: nat, j: nat, k: nat)
    requires i < j && Probe(next, x, i) == Probe(next, x, j)
    ensures exists m :: 0 <= m < j && Probe(next, x, k) == Probe(next, x, m)
    decreases k
  {
    if k >= j {
      Shift(next, x, i, j, k - j);
      CycleStays(next, x, i, j, i + (k - j));
    }
  }

  /**
    For every hash, starting point and set of rejected IDs: if the probing ever leaves the set,
    it does so within as many tries as the set has members. Otherwise it never stops.
   */
  lemma {:induction false} StopsWithin(next: ID -> ID, x: ID, rejected: set<ID>, k: nat)
    requires Probe(next, x, k) !in rejected
    ensures Stops(next, x, rejected, 0)
  {
    var n := |rejected| + 1;
    var s := Probes(next, x, n);
    if forall m :: 0 <= m < n ==> s[m] in rejected {
      Pigeonhole(s, rejected);
      var i, j :| 0 <= i < j < n && s[i] == s[j];
      CycleStays(next, x, i, j, k);
      assert false;
    } else {
      var m :| 0 <= m < n && s[m] !in rejected;
      assert Probe(next, x, m) !in rejected;
    }
  }

  /** The hash does not come back to an ID within the first `n` tries. */
  ghost predicate NoRepeat(next: ID -> ID, x: ID, n: nat) {
    forall i, j :: 0 <= i < j <= n ==> Probe(next, x, i) != Probe(next, x, j)
  }

  /** A hash that does not repeat gets out of any finite set. */
  lemma {:induction false} NoRepeatStops(next: ID -> ID, x: ID, rejected: set<ID>)
    requires NoRepeat(next, x, |rejected|)
    ensures Stops(next, x, rejected, 0)
  {
    var s := Probes(next, x, |rejected| + 1);
    if forall m :: 0 <= m < |s| ==> s[m] in rejected {
      Pigeonhole(s, rejected);
      assert false;
    }
    var m :| 0 <= m < |s| && s[m] !in rejected;
    assert Probe(next, x, m) !in rejected;
  }

  ghost predicate Stops(next: ID -> ID, x: ID, rejected: set<ID>, k: nat) {
    exists m :: k <= m <= |rejected| && Probe(next, x, m) !in rejected
  }

  /** The first try, from number `k` on, that is not rejected. */
  ghost function FirstFree(next: ID -> ID, x: ID, rejected: set<ID>, k: nat): (m: nat)
    requires Stops(next, x, rejected, k)
    ensures k <= m <= |rejected| && Probe(next, x, m) !in rejected
    ensures forall i :: k <= i < m ==> Probe(next, x, i) in rejected
    decreases |rejected| - k
  {
    if Probe(next, x, k) !in rejected then k else FirstFree(next, x, rejected, k + 1)
  }
}

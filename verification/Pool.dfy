/**
  The pull/push pool (`poolAdd` and `poolRemove` in `graph/tags.go`): at most one worker at a time
  holds a key, and everybody else can wait on a channel until it lets go. Channels are numbered
  in order of creation; `handed` are those given to a holder, and `closes` is the history of close
  operations.
 */
module PoolSpec {
  import opened Options

  type Channel = nat

  datatype Kind = Pull | Push | Unknown(name: string)

  datatype Pool = Pool(pulling: map<string, Channel>, pushing: map<string, Channel>, next: Channel,
                       handed: set<Channel>, closes: seq<Channel>)

  datatype AddResult = Added(c: Channel) | Busy(c: Channel) | UnknownKind

  function PoolAdd(p: Pool, kind: Kind, key: string): (Pool, AddResult) {
    if key in p.pulling then (p, Busy(p.pulling[key]))
    else if key in p.pushing then (p, Busy(p.pushing[key]))
    else
      match kind
      case Pull => (Handed(p.(pulling := p.pulling[key := p.next])), Added(p.next))
      case Push => (Handed(p.(pushing := p.pushing[key := p.next])), Added(p.next))
      case Unknown(_) => (p.(next := p.next + 1), UnknownKind)
  }

  function Handed(p: Pool): Pool {
    p.(next := p.next + 1, handed := p.handed + {p.next})
  }

  function PoolRemove(p: Pool, kind: Kind, key: string): (Pool, bool) {
    match kind
    case Pull =>
      (if key in p.pulling then p.(pulling := p.pulling - {key}, closes := p.closes + [p.pulling[key]]) else p, true)
    case Push =>
      (if key in p.pushing then p.(pushing := p.pushing - {key}, closes := p.closes + [p.pushing[key]]) else p, true)
    case Unknown(_) => (p, false)
  }

  // ---------- the workers ----------

  /** What a worker is doing: nothing, holding a key, or waiting for the holder's channel. */
  datatype Worker = Idle | Holding(kind: Kind, key: string, c: Channel) | Waiting(c: Channel)

  datatype System = System(pool: Pool, workers: map<nat, Worker>)

  datatype Step =
    | Start(w: nat, kind: Kind, key: string, wait: bool)   // poolAdd; `wait`: block when the key is taken
    | Finish(w: nat)                                       // the deferred poolRemove of what was added
    | Wake(w: nat)                                         // a receive on a closed channel

  function At(s: System, w: nat): Worker {
    if w in s.workers then s.workers[w] else Idle
  }

  predicate Enabled(s: System, step: Step) {
    match step
    case Start(w, _, _, _) => At(s, w).Idle?
    case Finish(w) => At(s, w).Holding?
    case Wake(w) => At(s, w).Waiting? && At(s, w).c in s.pool.closes
  }

  function Apply(s: System, step: Step): System
    requires Enabled(s, step)
  {
    match step
    case Start(w, kind, key, wait) =>
      var (p, r) := PoolAdd(s.pool, kind, key);
      System(p, s.workers[w := if r.Added? then Holding(kind, key, r.c) else if r.Busy? && wait then Waiting(r.c) else Idle])
    case Finish(w) =>
      System(PoolRemove(s.pool, At(s, w).kind, At(s, w).key).0, s.workers[w := Idle])
    case Wake(w) =>
      s.(workers := s.workers[w := Idle])
  }

  const Empty: System := System(Pool(map[], map[], 0, {}, []), map[])

  /** The state after a run of steps; none if some step was not enabled when it was taken. */
  function Exec(steps: seq<Step>): Option<System> {
    if steps == [] then Some(Empty)
    else
      var t, last := Exec(steps[..|steps| - 1]), steps[|steps| - 1];
      if t.Some? && Enabled(t.value, last) then Some(Apply(t.value, last)) else None
  }

  // ---------- the invariant ----------

  predicate InPool(p: Pool, kind: Kind, key: string, c: Channel) {
    || (kind.Pull? && key in p.pulling && p.pulling[key] == c)
    || (kind.Push? && key in p.pushing && p.pushing[key] == c)
  }

  ghost predicate Held(s: System, c: Channel) {
    exists w :: HoldsChannel(s, w, c)
  }

  predicate HoldsChannel(s: System, w: nat, c: Channel) {
    At(s, w).Holding? && At(s, w).c == c
  }

  predicate Holds(s: System, w: nat, kind: Kind, key: string, c: Channel) {
    At(s, w) == Holding(kind, key, c)
  }

  ghost predicate Valid(s: System) {
    && PoolValid(s.pool)
    // a pooled channel is held by the worker that added it, and by no other
    && (forall kind, key, c: Channel :: InPool(s.pool, kind, key, c) ==> exists w :: Holds(s, w, kind, key, c))
    && (forall w: nat, kind, key, c: Channel :: Holds(s, w, kind, key, c) ==> InPool(s.pool, kind, key, c))
    && (forall v: nat, w: nat, c: Channel :: HoldsChannel(s, v, c) && HoldsChannel(s, w, c) ==> v == w)
    // nobody waits on a channel that nobody will close
    && (forall w: nat :: At(s, w).Waiting? ==> Released(s, At(s, w).c))
  }

  /** Closed already, or still to be closed by its holder. */
  ghost predicate Released(s: System, c: Channel) {
    c in s.pool.closes || Held(s, c)
  }

  ghost predicate PoolValid(p: Pool) {
    && p.pulling.Keys !! p.pushing.Keys
    && (forall kind, key, c: Channel :: InPool(p, kind, key, c) ==> c < p.next && c !in p.closes)
    && (forall kind, key, kind', key', c: Channel :: InPool(p, kind, key, c) && InPool(p, kind', key', c) ==> kind == kind' && key == key')
    && (forall i :: 0 <= i < |p.closes| ==> p.closes[i] < p.next)
    && (forall i, j :: 0 <= i < j < |p.closes| ==> p.closes[i] != p.closes[j])
    && (forall c: Channel :: c in p.handed <==> c in p.closes || Pooled(p, c))
  }

  ghost predicate Pooled(p: Pool, c: Channel) {
    exists kind, key :: InPool(p, kind, key, c)
  }

  lemma PoolAddValid(p: Pool, kind: Kind, key: string)
    requires PoolValid(p)
    ensures var (q, r) := PoolAdd(p, kind, key);
            && PoolValid(q) && q.closes == p.closes
            && q.handed == p.handed + (if r.Added? then {r.c} else {})
            && (forall k, y, c: Channel :: InPool(q, k, y, c) <==> InPool(p, k, y, c) || (r == Added(c) && k == kind && y == key))
            && (r.Busy? ==> exists k :: InPool(p, k, key, r.c))
            && (r.Added? ==> r.c == p.next)
  {
    if key in p.pulling {
      assert InPool(p, Pull, key, p.pulling[key]);
    } else if key in p.pushing {
      assert InPool(p, Push, key, p.pushing[key]);
    }
    var (q, r) := PoolAdd(p, kind, key);
    forall k, y, c: Channel
      ensures InPool(q, k, y, c) <==> InPool(p, k, y, c) || (r == Added(c) && k == kind && y == key)
    {
    }
    forall c: Channel ensures Pooled(q, c) <==> Pooled(p, c) || r == Added(c) {
      if k, y :| InPool(p, k, y, c) {
        assert InPool(q, k, y, c);
      }
      if r == Added(c) {
        assert InPool(q, kind, key, c);
      }
    }
  }

  lemma PoolRemoveValid(p: Pool, kind: Kind, key: string, c: Channel)
    requires PoolValid(p) && InPool(p, kind, key, c)
    ensures var q := PoolRemove(p, kind, key).0;
            && PoolValid(q) && q.closes == p.closes + [c]
            && (forall k, y, d: Channel :: InPool(q, k, y, d) <==> InPool(p, k, y, d) && !(k == kind && y == key))
  {
    var q := PoolRemove(p, kind, key).0;
    forall k, y, d: Channel ensures InPool(q, k, y, d) <==> InPool(p, k, y, d) && !(k == kind && y == key) {}
    forall d: Channel ensures Pooled(q, d) <==> Pooled(p, d) && d != c {
      if k, y :| InPool(p, k, y, d) && d != c {
        assert InPool(q, k, y, d);
      }
    }
  }

  lemma StartValid(s: System, w: nat, kind: Kind, key: string, wait: bool)
    requires Valid(s) && At(s, w).Idle?
    ensures Valid(Apply(s, Start(w, kind, key, wait)))
  {
    PoolAddValid(s.pool, kind, key);
    var t := Apply(s, Start(w, kind, key, wait));
    var r := PoolAdd(s.pool, kind, key).1;
    forall k, y, c: Channel | InPool(t.pool, k, y, c) ensures exists v :: Holds(t, v, k, y, c) {
      if InPool(s.pool, k, y, c) {
        var v :| Holds(s, v, k, y, c);
        assert Holds(t, v, k, y, c);
      } else {
        assert Holds(t, w, k, y, c);
      }
    }
    forall v: nat, k, y, c: Channel | Holds(t, v, k, y, c) ensures InPool(t.pool, k, y, c) {
      if v != w {
        assert Holds(s, v, k, y, c);
      }
    }
    forall v: nat, c: Channel | v != w && HoldsChannel(t, v, c) ensures c < s.pool.next && HoldsChannel(s, v, c) {
      assert Holds(s, v, At(s, v).kind, At(s, v).key, c);
      assert InPool(s.pool, At(s, v).kind, At(s, v).key, c);
    }
    forall v: nat | At(t, v).Waiting? ensures Released(t, At(t, v).c) {
      var c := At(t, v).c;
      if v == w {
        var k :| InPool(s.pool, k, key, c);
        var u :| Holds(s, u, k, key, c);
        assert HoldsChannel(t, u, c);
      } else if c !in s.pool.closes {
        assert At(s, v) == At(t, v);
        assert Released(s, c);
        var u :| HoldsChannel(s, u, c);
        assert HoldsChannel(t, u, c);
      }
    }
  }

  lemma FinishValid(s: System, w: nat)
    requires Valid(s) && At(s, w).Holding?
    ensures Valid(Apply(s, Finish(w)))
  {
    var Holding(kind, key, c) := At(s, w);
    assert Holds(s, w, kind, key, c) && HoldsChannel(s, w, c);
    PoolRemoveValid(s.pool, kind, key, c);
    var t := Apply(s, Finish(w));
    forall k, y, d: Channel | InPool(t.pool, k, y, d) ensures exists v :: Holds(t, v, k, y, d) {
      var v :| Holds(s, v, k, y, d);
      assert Holds(t, v, k, y, d);
    }
    forall v: nat, k, y, d: Channel | Holds(t, v, k, y, d) ensures InPool(t.pool, k, y, d) {
      assert Holds(s, v, k, y, d);
      assert HoldsChannel(s, v, d);
    }
    forall v: nat, u: nat, d: Channel | HoldsChannel(t, v, d) && HoldsChannel(t, u, d) ensures v == u {
      assert HoldsChannel(s, v, d) && HoldsChannel(s, u, d);
    }
    forall v: nat | At(t, v).Waiting? ensures Released(t, At(t, v).c) {
      var d := At(t, v).c;
      assert At(s, v) == At(t, v);
      assert Released(s, d);
      if d !in t.pool.closes {
        var u :| HoldsChannel(s, u, d);
        assert HoldsChannel(t, u, d);
      }
    }
  }

  lemma WakeValid(s: System, w: nat)
    requires Valid(s) && Enabled(s, Wake(w))
    ensures Valid(Apply(s, Wake(w)))
  {
    var t := Apply(s, Wake(w));
    forall v: nat, c: Channel ensures HoldsChannel(t, v, c) <==> HoldsChannel(s, v, c) {}
    forall v: nat, k, y, c: Channel ensures Holds(t, v, k, y, c) <==> Holds(s, v, k, y, c) {}
    forall k, y, c: Channel | InPool(t.pool, k, y, c) ensures exists v :: Holds(t, v, k, y, c) {
      var v :| Holds(s, v, k, y, c);
      assert Holds(t, v, k, y, c);
    }
    forall v: nat | At(t, v).Waiting? ensures Released(t, At(t, v).c) {
      assert Released(s, At(s, v).c);
      if At(t, v).c !in t.pool.closes {
        var u :| HoldsChannel(s, u, At(t, v).c);
        assert HoldsChannel(t, u, At(t, v).c);
      }
    }
  }

  /** Every run of workers that remove only what they added keeps the invariant. */
  lemma {:induction false} RunValid(steps: seq<Step>, s: System)
    requires Exec(steps) == Some(s)
    ensures Valid(s)
    decreases |steps|
  {
    if steps != [] {
      var last := steps[|steps| - 1];
      var t := Exec(steps[..|steps| - 1]).value;
      RunValid(steps[..|steps| - 1], t);
      match last
      case Start(w, kind, key, wait) => StartValid(t, w, kind, key, wait);
      case Finish(w) => FinishValid(t, w);
      case Wake(w) => WakeValid(t, w);
    }
  }

  /** No two workers ever hold the same key, whatever their kinds. */
  lemma RunExcludes(steps: seq<Step>, s: System, v: nat, w: nat)
    requires Exec(steps) == Some(s) && At(s, v).Holding? && At(s, w).Holding? && At(s, v).key == At(s, w).key
    ensures v == w
  {
    RunValid(steps, s);
    OneHolder(s, v, w);
  }

  /** When a holder finishes, its channel is closed for the first time and all its waiters can go. */
  lemma FinishReleasesWaiters(steps: seq<Step>, s: System, w: nat, v: nat)
    requires Exec(steps) == Some(s) && At(s, w).Holding? && At(s, v) == Waiting(At(s, w).c)
    ensures At(s, w).c !in s.pool.closes && Enabled(Apply(s, Finish(w)), Wake(v))
  {
    RunValid(steps, s);
    var Holding(kind, key, c) := At(s, w);
    assert Holds(s, w, kind, key, c);
    PoolRemoveValid(s.pool, kind, key, c);
  }

  /** Every channel handed out is closed exactly once, or held by the one worker that will close it. */
  lemma HandedIsClosedOnceOrHeld(steps: seq<Step>, s: System, c: Channel)
    requires Exec(steps) == Some(s) && c in s.pool.handed
    ensures multiset(s.pool.closes)[c] == (if Held(s, c) then 0 else 1)
  {
    RunValid(steps, s);
    var closes := s.pool.closes;
    if Held(s, c) {
      var w :| HoldsChannel(s, w, c);
      assert Holds(s, w, At(s, w).kind, At(s, w).key, c);
      assert c !in closes;
    } else {
      if Pooled(s.pool, c) {
        var kind, key :| InPool(s.pool, kind, key, c);
        var w :| Holds(s, w, kind, key, c);
        assert HoldsChannel(s, w, c);
      }
      var i :| 0 <= i < |closes| && closes[i] == c;
      assert closes == closes[..i] + [c] + closes[i + 1..];
      assert c !in closes[..i] && c !in closes[i + 1..];
    }
  }

  // ---------- removing what was not added ----------

  /**
    The layer loop of a v1 pull waits when its key is taken and then removes the key although it
    has not added it: a step of its own, taken by a worker that holds nothing.
   */
  datatype AnyStep = Orderly(step: Step) | Stray(w: nat, kind: Kind, key: string)

  predicate AnyEnabled(s: System, a: AnyStep) {
    match a
    case Orderly(step) => Enabled(s, step)
    case Stray(w, _, _) => At(s, w).Idle?
  }

  function AnyApply(s: System, a: AnyStep): System
    requires AnyEnabled(s, a)
  {
    match a
    case Orderly(step) => Apply(s, step)
    case Stray(_, kind, key) => s.(pool := PoolRemove(s.pool, kind, key).0)
  }

  function AnyRun(s: System, steps: seq<AnyStep>): Option<System>
    decreases |steps|
  {
    if steps == [] then Some(s)
    else if AnyEnabled(s, steps[0]) then AnyRun(AnyApply(s, steps[0]), steps[1..]) else None
  }

  /** Two workers hold the same key. */
  ghost predicate Shared(s: System, key: string) {
    exists v: nat, w: nat :: v != w && HoldsKey(s, v, key) && HoldsKey(s, w, key)
  }

  predicate HoldsKey(s: System, w: nat, key: string) {
    At(s, w).Holding? && At(s, w).key == key
  }

  /**
    After a stray removal the next worker that starts on the key shares it with its holder exactly
    when there was a holder, that is, when the key was in the pool.
   */
  lemma StrayRemoveIff(s: System, w: nat, v: nat, kind: Kind, key: string, wait: bool)
    requires Valid(s) && At(s, w).Idle? && At(s, v).Idle? && !kind.Unknown?
    ensures var t := AnyApply(s, Stray(w, kind, key));
            && Enabled(t, Start(v, kind, key, wait))
            && (Shared(Apply(t, Start(v, kind, key, wait)), key) <==> exists c :: InPool(s.pool, kind, key, c))
  {
    var t := AnyApply(s, Stray(w, kind, key));
    var u := Apply(t, Start(v, kind, key, wait));
    if c :| InPool(s.pool, kind, key, c) {
      var x :| Holds(s, x, kind, key, c);
      assert key !in t.pool.pulling && key !in t.pool.pushing;
      assert HoldsKey(u, x, key) && HoldsKey(u, v, key);
    } else {
      assert kind.Pull? ==> key !in s.pool.pulling by {
        if kind.Pull? && key in s.pool.pulling { assert InPool(s.pool, kind, key, s.pool.pulling[key]); }
      }
      assert kind.Push? ==> key !in s.pool.pushing by {
        if kind.Push? && key in s.pool.pushing { assert InPool(s.pool, kind, key, s.pool.pushing[key]); }
      }
      assert t == s;
      StartValid(s, v, kind, key, wait);
      forall x: nat, y: nat | HoldsKey(u, x, key) && HoldsKey(u, y, key) ensures x == y {
        OneHolder(u, x, y);
      }
    }
  }

  lemma OneHolder(s: System, v: nat, w: nat)
    requires Valid(s) && At(s, v).Holding? && At(s, w).Holding? && At(s, v).key == At(s, w).key
    ensures v == w
  {
    assert Holds(s, v, At(s, v).kind, At(s, v).key, At(s, v).c);
    assert Holds(s, w, At(s, w).kind, At(s, w).key, At(s, w).c);
    assert HoldsChannel(s, v, At(s, v).c) && HoldsChannel(s, w, At(s, w).c);
  }

  lemma RunStep(s: System, a: AnyStep, rest: seq<AnyStep>)
    requires AnyEnabled(s, a)
    ensures AnyRun(s, [a] + rest) == AnyRun(AnyApply(s, a), rest)
  {
    assert ([a] + rest)[1..] == rest;
  }

  function Begin(w: nat): AnyStep {
    Orderly(Start(w, Pull, "layer", true))
  }

  /**
    A run that gets there: 1 waits for 0, and when 0 is done 2 takes the key before 1 wakes up,
    removes it, and so lets 3 in beside 2.
   */
  lemma StrayRunShares()
    ensures var steps := [Begin(0), Begin(1), Orderly(Finish(0)), Begin(2), Orderly(Wake(1)), Stray(1, Pull, "layer"), Begin(3)];
            AnyRun(Empty, steps).Some? && Shared(AnyRun(Empty, steps).value, "layer")
  {
    var b := [Orderly(Finish(0)), Begin(2), Orderly(Wake(1)), Stray(1, Pull, "layer"), Begin(3)];
    var s1 := AnyApply(Empty, Begin(0));
    RunStep(Empty, Begin(0), [Begin(1)] + b);
    RunStep(s1, Begin(1), b);
    MiddleOfStrayRun(AnyApply(s1, Begin(1)));
    assert [Begin(0)] + ([Begin(1)] + b) ==
           [Begin(0), Begin(1), Orderly(Finish(0)), Begin(2), Orderly(Wake(1)), Stray(1, Pull, "layer"), Begin(3)];
  }

  /** From a state in which 0 holds the key and 1 waits for it. */
  lemma MiddleOfStrayRun(s: System)
    requires s.pool.pulling == map["layer" := 0] && s.pool.pushing == map[]
    requires At(s, 0) == Holding(Pull, "layer", 0) && At(s, 1) == Waiting(0) && At(s, 2).Idle? && At(s, 3).Idle?
    ensures var r := AnyRun(s, [Orderly(Finish(0)), Begin(2), Orderly(Wake(1)), Stray(1, Pull, "layer"), Begin(3)]);
            r.Some? && Shared(r.value, "layer")
  {
    var b := [Orderly(Wake(1)), Stray(1, Pull, "layer"), Begin(3)];
    var s3 := AnyApply(s, Orderly(Finish(0)));
    RunStep(s, Orderly(Finish(0)), [Begin(2)] + b);
    RunStep(s3, Begin(2), b);
    EndOfStrayRun(AnyApply(s3, Begin(2)));
    assert [Orderly(Finish(0))] + ([Begin(2)] + b) ==
           [Orderly(Finish(0)), Begin(2), Orderly(Wake(1)), Stray(1, Pull, "layer"), Begin(3)];
  }

  /** The last three steps, from a state in which 1 can wake up and 2 holds the key. */
  lemma EndOfStrayRun(s: System)
    requires Enabled(s, Wake(1)) && HoldsKey(s, 2, "layer") && At(s, 3).Idle? && "layer" !in s.pool.pushing
    ensures var r := AnyRun(s, [Orderly(Wake(1)), Stray(1, Pull, "layer"), Begin(3)]);
            r.Some? && Shared(r.value, "layer")
  {
    var s5 := AnyApply(s, Orderly(Wake(1)));
    var s6 := AnyApply(s5, Stray(1, Pull, "layer"));
    var s7 := AnyApply(s6, Begin(3));
    assert [Orderly(Wake(1))] + ([Stray(1, Pull, "layer")] + [Begin(3)]) == [Orderly(Wake(1)), Stray(1, Pull, "layer"), Begin(3)];
    RunStep(s, Orderly(Wake(1)), [Stray(1, Pull, "layer")] + [Begin(3)]);
    RunStep(s5, Stray(1, Pull, "layer"), [Begin(3)]);
    RunStep(s6, Begin(3), []);
    assert [Begin(3)] + [] == [Begin(3)];
    assert HoldsKey(s7, 2, "layer") && HoldsKey(s7, 3, "layer");
  }
}

module PoolStore {
  import opened PoolSpec

  class TagStore {
    var pullingPool: map<string, Channel>
    var pushingPool: map<string, Channel>
    var nextChannel: Channel
    ghost var handed: set<Channel>
    ghost var closes: seq<Channel>

    ghost function Pool(): Pool
      reads this
    {
      PoolSpec.Pool(pullingPool, pushingPool, nextChannel, handed, closes)
    }

    constructor ()
      ensures Pool() == Empty.pool
    {
      pullingPool, pushingPool, nextChannel, handed, closes := map[], map[], 0, {}, [];
    }

    method MakeChannel() returns (c: Channel)
      modifies this`nextChannel
      ensures c == old(nextChannel) && nextChannel == c + 1
    {
      c := nextChannel;
      nextChannel := nextChannel + 1;
    }

    /** Closing twice panics. */
    method Close(c: Channel)
      requires c !in closes
      modifies this`closes
      ensures closes == old(closes) + [c]
    {
      closes := closes + [c];
    }

    /** `poolAdd`: a valid pool stays valid, and a key that is taken gives its owner's channel, which is still open. */
    method PoolAdd(kind: Kind, key: string) returns (r: AddResult)
      modifies this
      ensures (Pool(), r) == PoolSpec.PoolAdd(old(Pool()), kind, key)
      ensures r.Busy? <==> key in old(pullingPool) || key in old(pushingPool)
      ensures r.Added? <==> key !in old(pullingPool) && key !in old(pushingPool) && !kind.Unknown?
      ensures pullingPool == if r.Added? && kind.Pull? then old(pullingPool)[key := r.c] else old(pullingPool)
      ensures pushingPool == if r.Added? && kind.Push? then old(pushingPool)[key := r.c] else old(pushingPool)
      ensures closes == old(closes)
      ensures old(PoolValid(Pool())) ==>
                && PoolValid(Pool())
                && (r.Added? ==> InPool(Pool(), kind, key, r.c) && r.c !in old(handed))
                && (r.Busy? ==> (exists k :: InPool(Pool(), k, key, r.c)) && r.c !in closes)
    {
      if PoolValid(Pool()) {
        PoolAddValid(Pool(), kind, key);
      }
      if key in pullingPool {
        return Busy(pullingPool[key]);
      }
      if key in pushingPool {
        return Busy(pushingPool[key]);
      }
      var c := MakeChannel();
      match kind {
        case Pull => pullingPool := pullingPool[key := c];
        case Push => pushingPool := pushingPool[key := c];
        case Unknown(_) => return UnknownKind;
      }
      handed := handed + {c};
      r := Added(c);
    }

    /** `poolRemove`; a valid pool never closes a channel twice. */
    method PoolRemove(kind: Kind, key: string) returns (ok: bool)
      requires PoolValid(Pool())
      modifies this
      ensures (Pool(), ok) == PoolSpec.PoolRemove(old(Pool()), kind, key)
      ensures PoolValid(Pool())
      ensures ok <==> !kind.Unknown?
      ensures forall k, y, c: Channel :: InPool(Pool(), k, y, c) <==> InPool(old(Pool()), k, y, c) && !(k == kind && y == key)
      ensures forall c: Channel :: c in closes <==> c in old(closes) || InPool(old(Pool()), kind, key, c)
    {
      match kind {
        case Pull =>
          if key in pullingPool {
            assert InPool(Pool(), Pull, key, pullingPool[key]);
            PoolRemoveValid(Pool(), Pull, key, pullingPool[key]);
            Close(pullingPool[key]);
            pullingPool := pullingPool - {key};
          }
        case Push =>
          if key in pushingPool {
            assert InPool(Pool(), Push, key, pushingPool[key]);
            PoolRemoveValid(Pool(), Push, key, pushingPool[key]);
            Close(pushingPool[key]);
            pushingPool := pushingPool - {key};
          }
        case Unknown(_) =>
          return false;
      }
      ok := true;
    }
  }
}

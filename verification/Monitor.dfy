/**
  The restart monitor of a container (`daemon/monitor.go`, `daemon/state.go`) as a system of atomic
  steps: the supervision loop, stop requests and waiters, interleaved in any order. A channel is
  a number; closing one appends it to a history, and closing it twice would panic.
 */
module MonitorSpec {
  import opened Options

  // ---------- container state ----------

  /** The lifecycle part of `State`; every wait channel made is one above the last, and times are numbers. */
  datatype Status = Status(running: bool, paused: bool, restarting: bool, pid: int, exitCode: int, oomKilled: bool,
                           error: string, startedAt: int, finishedAt: int, waitChan: nat, closed: seq<nat>)

  /** Close the wait channel and make a new one. */
  function Fire(s: Status): Status {
    s.(closed := s.closed + [s.waitChan], waitChan := s.waitChan + 1)
  }

  function AsRunning(s: Status, pid: int, time: int): Status {
    s.(error := "", running := true, paused := false, restarting := false, exitCode := 0, pid := pid, startedAt := time)
  }

  datatype ExitStatus = ExitStatus(exitCode: int, oomKilled: bool)

  function AsStopped(s: Status, e: ExitStatus, time: int): Status {
    s.(running := false, restarting := false, pid := 0, finishedAt := time, exitCode := e.exitCode, oomKilled := e.oomKilled)
  }

  /** A restarting container counts as running. */
  function AsRestarting(s: Status, e: ExitStatus, time: int): Status {
    s.(running := true, restarting := true, pid := 0, finishedAt := time, exitCode := e.exitCode, oomKilled := e.oomKilled)
  }

  // ---------- the monitor ----------

  datatype Policy = Always | OnFailure(max: int) | Never

  /** Where the loop of `Start` stands. */
  datatype PC =
    | Top        // about to count the restart and start the logs
    | Ready      // about to call Run
    | Running    // inside Run
    | Ended      // Run has returned and the monitor is reset
    | Marking    // decided to restart
    | Sleeping   // waitForNextRestart
    | Awake      // woken up, about to look at shouldStop
    | Leaving    // returning: the deferred function is next
    | Gone

  datatype Monitor = Monitor(
    pc: PC, policy: Policy, restartCount: int, failureCount: int, timeIncrement: int,
    shouldStop: bool, stopCloses: nat, startCloses: nat, afterRun: bool, last: ExitStatus,
    // history: runs begun, runs begun after a stop request, short runs in a row up to now
    runs: nat, runsAfterStop: nat, shortRuns: nat)

  const DefaultTimeIncrement: int := 100

  function NewMonitor(policy: Policy): Monitor {
    Monitor(Top, policy, -1, 0, DefaultTimeIncrement, false, 0, 0, false, ExitStatus(0, false), 0, 0, 0)
  }

  /** A 64-bit signed integer. */
  function Wrap(x: int): int {
    (x + 0x8000_0000_0000_0000) % 0x1_0000_0000_0000_0000 - 0x8000_0000_0000_0000
  }

  function ExitOnNext(m: Monitor): Monitor {
    if m.shouldStop then m else m.(shouldStop := true, stopCloses := m.stopCloses + 1)
  }

  function ResetMonitor(m: Monitor, successful: bool, long: bool): Monitor {
    m.(timeIncrement := if long then DefaultTimeIncrement else Wrap(m.timeIncrement * 2),
       shortRuns := if long then 0 else m.shortRuns + 1,
       failureCount := if successful then 0 else m.failureCount + 1)
  }

  predicate ShouldRestart(m: Monitor, exitCode: int) {
    && !m.shouldStop
    && match m.policy
       case Always => true
       case OnFailure(max) => !(max != 0 && m.failureCount > max) && exitCode != 0
       case Never => false
  }

  /** `callback` closes the start signal unless it is closed already. */
  function SignalStart(m: Monitor): Monitor {
    if m.startCloses > 0 then m else m.(startCloses := 1)
  }

  // ---------- the system ----------

  datatype System = System(m: Monitor, status: Status, waiters: map<nat, nat>)   // waiter -> the channel it waits on

  datatype Action =
    | Log(ok: bool)
    | BeginRun
    | Callback(pid: int, time: int)
    | EndRun(failed: bool, e: ExitStatus, long: bool)
    | Decide
    | MarkRestarting(time: int)
    | TimerFires
    | StopWakes
    | Check
    | Leave(time: int)
    | RequestStop
    | WaitStop(w: nat)
    | WaitRunning(w: nat)
    | Unpark(w: nat)
    | TimeOut(w: nat)

  predicate Enabled(s: System, a: Action) {
    match a
    case Log(_) => s.m.pc.Top?
    case BeginRun => s.m.pc.Ready?
    case Callback(_, _) => s.m.pc.Running?
    case EndRun(_, _, _) => s.m.pc.Running?
    case Decide => s.m.pc.Ended?
    case MarkRestarting(_) => s.m.pc.Marking?
    case TimerFires => s.m.pc.Sleeping?
    case StopWakes => s.m.pc.Sleeping? && s.m.stopCloses > 0
    case Check => s.m.pc.Awake?
    case Leave(_) => s.m.pc.Leaving?
    case RequestStop => true
    case WaitStop(w) => w !in s.waiters
    case WaitRunning(w) => w !in s.waiters
    case Unpark(w) => w in s.waiters && s.waiters[w] in s.status.closed
    case TimeOut(w) => w in s.waiters
  }

  function Apply(s: System, a: Action): System
    requires Enabled(s, a)
  {
    var m := s.m;
    match a
    case Log(ok) =>
      s.(m := m.(restartCount := m.restartCount + 1, pc := if ok then Ready else Leaving))
    case BeginRun =>
      s.(m := m.(pc := Running, runs := m.runs + 1, runsAfterStop := m.runsAfterStop + if m.shouldStop then 1 else 0))
    case Callback(pid, time) =>
      s.(m := SignalStart(m), status := Fire(AsRunning(s.status, pid, time)))
    case EndRun(failed, e, long) =>
      if failed && m.restartCount == 0 then s.(m := m.(pc := Leaving, last := e), status := s.status.(exitCode := -1))
      else s.(m := ResetMonitor(m.(afterRun := true, last := e), !failed && e.exitCode == 0, long).(pc := Ended))
    case Decide =>
      s.(m := m.(pc := if ShouldRestart(m, m.last.exitCode) then Marking else Leaving))
    case MarkRestarting(time) =>
      s.(m := m.(pc := Sleeping), status := Fire(AsRestarting(s.status, m.last, time)))
    case TimerFires => s.(m := m.(pc := Awake))
    case StopWakes => s.(m := m.(pc := Awake))
    case Check => s.(m := m.(pc := if m.shouldStop then Leaving else Top))
    case Leave(time) =>
      s.(m := m.(pc := Gone), status := if m.afterRun then Fire(AsStopped(s.status, m.last, time)) else s.status)
    case RequestStop => s.(m := ExitOnNext(m))
    case WaitStop(w) => if s.status.running then s.(waiters := s.waiters[w := s.status.waitChan]) else s
    case WaitRunning(w) => if s.status.running then s else s.(waiters := s.waiters[w := s.status.waitChan])
    case Unpark(w) => s.(waiters := s.waiters - {w})
    case TimeOut(w) => s.(waiters := s.waiters - {w})
  }

  /** A fresh monitor, and a container with nobody waiting on a channel that is gone. */
  ghost predicate Initial(s: System) {
    (exists policy :: s.m == NewMonitor(policy)) && ChannelsValid(s)
  }

  /** The state after a run; none if some action was not enabled when it was taken. */
  function Exec(init: System, actions: seq<Action>): Option<System> {
    if actions == [] then Some(init)
    else
      var t, last := Exec(init, actions[..|actions| - 1]), actions[|actions| - 1];
      if t.Some? && Enabled(t.value, last) then Some(Apply(t.value, last)) else None
  }

  lemma ExecStep(init: System, actions: seq<Action>, s: System, a: Action)
    requires Exec(init, actions) == Some(s) && Enabled(s, a)
    ensures Exec(init, actions + [a]) == Some(Apply(s, a))
  {
    assert (actions + [a])[..|actions|] == actions;
  }

  // ---------- invariants ----------

  /** No wait channel has been closed twice, the current one not at all, and nobody waits on any other. */
  ghost predicate ChannelsValid(s: System) {
    && (forall i :: 0 <= i < |s.status.closed| ==> s.status.closed[i] < s.status.waitChan)
    && (forall i, j :: 0 <= i < j < |s.status.closed| ==> s.status.closed[i] != s.status.closed[j])
    && (forall w :: w in s.waiters ==> s.waiters[w] == s.status.waitChan || s.waiters[w] in s.status.closed)
  }

  /** The signals are closed at most once, and a stop request admits at most one more run. */
  predicate SignalsValid(m: Monitor) {
    && m.stopCloses == (if m.shouldStop then 1 else 0)
    && m.startCloses <= 1
    && (!m.shouldStop ==> m.runsAfterStop == 0)
    && m.runsAfterStop <= (if m.pc.Top? || m.pc.Ready? then 0 else 1)
  }

  /** How many runs `on-failure:max` allows. */
  function RunBound(max: int): nat
    requires max != 0
  {
    if max < 0 then 1 else max + 1
  }

  /** Every run counted so far has failed while the loop goes on. */
  predicate CountsValid(m: Monitor) {
    && m.failureCount >= 0
    && match m.policy
       case Always => true
       case Never => m.runs <= (if m.pc.Top? || m.pc.Ready? then 0 else 1) && !m.pc.Marking? && !m.pc.Sleeping? && !m.pc.Awake?
       case OnFailure(max) =>
         max != 0 ==>
           && m.runs <= RunBound(max)
           && (m.pc.Top? || m.pc.Ready? ==> m.failureCount == m.runs && m.runs < RunBound(max))
           && (m.pc.Running? ==> m.failureCount + 1 == m.runs)
           && (m.pc.Ended? && m.last.exitCode != 0 ==> m.failureCount == m.runs)
           && (m.pc.Marking? || m.pc.Sleeping? || m.pc.Awake? ==> m.failureCount == m.runs && m.runs < RunBound(max))
  }

  function Pow2(k: nat): nat {
    if k == 0 then 1 else 2 * Pow2(k - 1)
  }

  /** The wait is 100 ms times 2 to the number of short runs in a row, as far as 64 bits go. */
  predicate BackoffValid(m: Monitor) {
    m.timeIncrement == Wrap(DefaultTimeIncrement * Pow2(m.shortRuns))
  }

  ghost predicate Valid(s: System) {
    ChannelsValid(s) && SignalsValid(s.m) && CountsValid(s.m) && BackoffValid(s.m)
  }

  lemma WrapTwice(x: int)
    ensures Wrap(Wrap(x) * 2) == Wrap(x * 2)
  {
    var q := (x + 0x8000_0000_0000_0000) / 0x1_0000_0000_0000_0000;
    assert Wrap(x) == x - q * 0x1_0000_0000_0000_0000;
    assert Wrap(x) * 2 + 0x8000_0000_0000_0000 == (x * 2 + 0x8000_0000_0000_0000) - (2 * q) * 0x1_0000_0000_0000_0000;
    ModShift(x * 2 + 0x8000_0000_0000_0000, 2 * q);
  }

  lemma ModShift(a: int, k: int)
    ensures (a - k * 0x1_0000_0000_0000_0000) % 0x1_0000_0000_0000_0000 == a % 0x1_0000_0000_0000_0000
  {
  }

  lemma FireValid(s: System, st: Status)
    requires ChannelsValid(s) && st.waitChan == s.status.waitChan && st.closed == s.status.closed
    ensures ChannelsValid(s.(status := Fire(st)))
    ensures forall w :: w in s.waiters ==> Enabled(s.(status := Fire(st)), Unpark(w))
  {
  }

  lemma StepChannels(s: System, a: Action)
    requires ChannelsValid(s) && Enabled(s, a)
    ensures ChannelsValid(Apply(s, a))
  {
    match a
    case Callback(pid, time) => FireValid(s, AsRunning(s.status, pid, time));
    case MarkRestarting(time) => FireValid(s, AsRestarting(s.status, s.m.last, time));
    case Leave(time) => FireValid(s, AsStopped(s.status, s.m.last, time));
    case _ =>
  }

  lemma StepMonitor(s: System, a: Action)
    requires Enabled(s, a) && SignalsValid(s.m) && CountsValid(s.m) && BackoffValid(s.m)
    ensures var m := Apply(s, a).m; SignalsValid(m) && CountsValid(m) && BackoffValid(m)
  {
    if a.EndRun? {
      WrapTwice(DefaultTimeIncrement * Pow2(s.m.shortRuns));
      assert DefaultTimeIncrement * Pow2(s.m.shortRuns + 1) == DefaultTimeIncrement * Pow2(s.m.shortRuns) * 2;
    }
  }

  /** The invariant holds in every state that any interleaving reaches. */
  lemma {:induction false} RunValid(init: System, actions: seq<Action>, s: System)
    requires Initial(init) && Exec(init, actions) == Some(s)
    ensures Valid(s)
    decreases |actions|
  {
    if actions == [] {
      assert Pow2(0) == 1;
    } else {
      var t, last := Exec(init, actions[..|actions| - 1]).value, actions[|actions| - 1];
      RunValid(init, actions[..|actions| - 1], t);
      StepChannels(t, last);
      StepMonitor(t, last);
    }
  }

  lemma {:induction false} OnceEach(closed: seq<nat>, c: nat)
    requires forall i, j :: 0 <= i < j < |closed| ==> closed[i] != closed[j]
    ensures multiset(closed)[c] <= 1
  {
    if closed != [] {
      var n := |closed| - 1;
      assert closed == closed[..n] + [closed[n]];
      assert closed[n] !in closed[..n];
      OnceEach(closed[..n], c);
    }
  }

  /** In every interleaving each signal is closed at most once, and at most one run begins after a stop request. */
  lemma StopIsHonoured(init: System, actions: seq<Action>, s: System)
    requires Initial(init) && Exec(init, actions) == Some(s)
    ensures s.m.stopCloses <= 1 && s.m.startCloses <= 1 && s.m.runsAfterStop <= 1
    ensures forall c :: multiset(s.status.closed)[c] <= 1
  {
    RunValid(init, actions, s);
    forall c ensures multiset(s.status.closed)[c] <= 1 {
      OnceEach(s.status.closed, c);
    }
  }

  /** A request that finds the loop past the start of a run lets no further run begin. */
  lemma {:induction false} NoRunAfterStop(s: System, actions: seq<Action>, t: System)
    requires s.m.shouldStop && !s.m.pc.Top? && !s.m.pc.Ready? && Exec(s, actions) == Some(t)
    ensures t.m.shouldStop && !t.m.pc.Top? && !t.m.pc.Ready? && t.m.runs == s.m.runs
    decreases |actions|
  {
    if actions != [] {
      NoRunAfterStop(s, actions[..|actions| - 1], Exec(s, actions[..|actions| - 1]).value);
    }
  }

  /** Under `on-failure` with a limit no interleaving makes more runs than the limit and one; without a policy, one. */
  lemma RunsBounded(init: System, actions: seq<Action>, s: System)
    requires Initial(init) && Exec(init, actions) == Some(s)
    ensures s.m.policy.OnFailure? && s.m.policy.max > 0 ==> s.m.runs <= s.m.policy.max + 1
    ensures s.m.policy.OnFailure? && s.m.policy.max < 0 ==> s.m.runs <= 1
    ensures s.m.policy.Never? ==> s.m.runs <= 1
  {
    RunValid(init, actions, s);
  }

  /** The actions that change the container's state. */
  predicate ChangesState(s: System, a: Action) {
    a.Callback? || a.MarkRestarting? || (a.Leave? && s.m.afterRun)
  }

  /** Every change of state releases everybody who was waiting before it; nothing else that the monitor does does. */
  lemma ChangeReleasesWaiters(init: System, actions: seq<Action>, s: System, a: Action, w: nat)
    requires Initial(init) && Exec(init, actions) == Some(s) && Enabled(s, a) && w in s.waiters
    requires !(a == Unpark(w)) && !(a == TimeOut(w))
    ensures w in Apply(s, a).waiters
    ensures Enabled(Apply(s, a), Unpark(w)) <==> ChangesState(s, a) || Enabled(s, Unpark(w))
  {
    RunValid(init, actions, s);
    if ChangesState(s, a) {
      var st := match a
        case Callback(pid, time) => AsRunning(s.status, pid, time)
        case MarkRestarting(time) => AsRestarting(s.status, s.m.last, time)
        case Leave(time) => AsStopped(s.status, s.m.last, time)
        case _ => s.status;
      FireValid(s, st);
      assert Apply(s, a).status == Fire(st);
    }
  }

  /** Who waits for a stop parks exactly while the container runs, and who waits for a start exactly while it does not. */
  lemma WaitParks(s: System, w: nat)
    requires w !in s.waiters
    ensures w in Apply(s, WaitStop(w)).waiters <==> s.status.running
    ensures w in Apply(s, WaitRunning(w)).waiters <==> !s.status.running
    ensures forall a :: a in {WaitStop(w), WaitRunning(w)} && w in Apply(s, a).waiters ==>
              Apply(s, a).waiters[w] == s.status.waitChan
  {
  }

  // ---------- the counters count ----------

  predicate Stopped(actions: seq<Action>) {
    RequestStop in actions
  }

  function Logs(actions: seq<Action>): nat {
    if actions == [] then 0
    else Logs(actions[..|actions| - 1]) + if actions[|actions| - 1].Log? then 1 else 0
  }

  /** How many runs began; `late` of them after a request to stop. */
  function Begun(actions: seq<Action>, late: bool): nat {
    if actions == [] then 0
    else
      var init := actions[..|actions| - 1];
      Begun(init, late) + if actions[|actions| - 1].BeginRun? && (late ==> Stopped(init)) then 1 else 0
  }

  /** The end of a run that the loop goes on from: any but an error of the very first start. */
  predicate Counts(before: seq<Action>, a: Action) {
    a.EndRun? && !(a.failed && Logs(before) == 1)
  }

  /** How many runs in a row, up to now, were short. */
  function Short(actions: seq<Action>): nat {
    if actions == [] then 0
    else
      var init, a := actions[..|actions| - 1], actions[|actions| - 1];
      if !Counts(init, a) then Short(init) else if a.long then 0 else Short(init) + 1
  }

  /** How many runs in a row, up to now, failed. */
  function Failed(actions: seq<Action>): nat {
    if actions == [] then 0
    else
      var init, a := actions[..|actions| - 1], actions[|actions| - 1];
      if !Counts(init, a) then Failed(init) else if !a.failed && a.e.exitCode == 0 then 0 else Failed(init) + 1
  }

  lemma StepCounts(s: System, a: Action)
    requires Enabled(s, a)
    ensures Apply(s, a).m.restartCount == s.m.restartCount + if a.Log? then 1 else 0
    ensures Apply(s, a).m.shouldStop == (s.m.shouldStop || a.RequestStop?)
    ensures Apply(s, a).m.runs == s.m.runs + if a.BeginRun? then 1 else 0
    ensures Apply(s, a).m.runsAfterStop == s.m.runsAfterStop + if a.BeginRun? && s.m.shouldStop then 1 else 0
    ensures if a.EndRun? && !(a.failed && s.m.restartCount == 0) then
              && Apply(s, a).m.shortRuns == (if a.long then 0 else s.m.shortRuns + 1)
              && Apply(s, a).m.failureCount == (if !a.failed && a.e.exitCode == 0 then 0 else s.m.failureCount + 1)
            else
              Apply(s, a).m.shortRuns == s.m.shortRuns && Apply(s, a).m.failureCount == s.m.failureCount
  {
  }

  lemma StoppedStep(before: seq<Action>, a: Action)
    ensures Stopped(before + [a]) <==> Stopped(before) || a.RequestStop?
  {
    assert a.RequestStop? ==> (before + [a])[|before|] == RequestStop;
  }

  /** In every run the counters of the monitor are those of what has happened. */
  lemma {:induction false} CountersCount(init: System, actions: seq<Action>, s: System)
    requires Initial(init) && Exec(init, actions) == Some(s)
    ensures s.m.restartCount == Logs(actions) - 1 && (s.m.shouldStop <==> Stopped(actions))
    ensures s.m.runs == Begun(actions, false) && s.m.runsAfterStop == Begun(actions, true)
    ensures s.m.shortRuns == Short(actions) && s.m.failureCount == Failed(actions)
    decreases |actions|
  {
    if actions != [] {
      var before, last := actions[..|actions| - 1], actions[|actions| - 1];
      var t := Exec(init, before).value;
      CountersCount(init, before, t);
      StepCounts(t, last);
      StoppedStep(before, last);
      assert actions == before + [last];
    }
  }

  // ---------- the backoff ----------

  /** The nanoseconds that `waitForNextRestart` sleeps. */
  function SleepNanoseconds(m: Monitor): int {
    Wrap(m.timeIncrement * 1_000_000)
  }

  lemma {:induction false} Pow2Grows(j: nat, k: nat)
    requires j <= k
    ensures Pow2(j) <= Pow2(k)
    decreases k
  {
    if j < k {
      Pow2Grows(j, k - 1);
    }
  }

  lemma {:induction false} Pow2Sum(a: nat, b: nat)
    ensures Pow2(a + b) == Pow2(a) * Pow2(b)
  {
    if a > 0 {
      Pow2Sum(a - 1, b);
      assert a + b - 1 == a - 1 + b;
    }
  }

  lemma Pow2Of36()
    ensures Pow2(36) == 0x10_0000_0000
  {
    assert Pow2(9) == 512 by {
      assert Pow2(5) == 32;
    }
    Pow2Sum(9, 9);
    Pow2Sum(18, 18);
  }

  lemma WrapRange(x: int)
    ensures -0x8000_0000_0000_0000 <= Wrap(x) < 0x8000_0000_0000_0000
    ensures -0x8000_0000_0000_0000 <= x < 0x8000_0000_0000_0000 ==> Wrap(x) == x
  {
  }

  /** The sleep after k short runs in a row is exactly 100 times 2^k milliseconds, if and only if k is at most 36. */
  lemma BackoffExactIff(init: System, actions: seq<Action>, s: System)
    requires Initial(init) && Exec(init, actions) == Some(s)
    ensures SleepNanoseconds(s.m) == 100 * Pow2(s.m.shortRuns) * 1_000_000 <==> s.m.shortRuns <= 36
  {
    RunValid(init, actions, s);
    Pow2Of36();
    var k := s.m.shortRuns;
    WrapRange(s.m.timeIncrement * 1_000_000);
    if k <= 36 {
      Pow2Grows(k, 36);
      WrapRange(100 * Pow2(k));
    } else {
      Pow2Grows(37, k);
      assert Pow2(37) == 2 * Pow2(36);
    }
  }

  /** Once round the loop: a run that fails at once, the decision to restart, and the wait. */
  const ShortRound: seq<Action> :=
    [Log(true), BeginRun, EndRun(false, ExitStatus(1, false), false), Decide, MarkRestarting(0), TimerFires, Check]

  function ShortRounds(k: nat): seq<Action> {
    if k == 0 then [] else ShortRounds(k - 1) + ShortRound
  }

  /** A container under `always` that has just failed `k` times in a row. */
  predicate FailedShortly(s: System, k: nat) {
    s.m.pc.Top? && s.m.policy.Always? && !s.m.shouldStop && s.m.shortRuns == k
  }

  /** The state after `i` steps of such a round. */
  predicate InShortRound(s: System, k: nat, i: nat)
    requires i <= 7
  {
    && s.m.pc == [Top, Ready, Running, Ended, Marking, Sleeping, Awake, Top][i]
    && s.m.policy.Always? && !s.m.shouldStop && s.m.shortRuns == if i < 3 then k else k + 1
  }

  lemma StepOfShortRound(s: System, k: nat, i: nat)
    requires i < 7 && InShortRound(s, k, i)
    ensures Enabled(s, ShortRound[i]) && InShortRound(Apply(s, ShortRound[i]), k, i + 1)
  {
  }

  lemma {:induction false} StepsOfShortRound(init: System, actions: seq<Action>, s: System, k: nat, i: nat)
    requires i <= 7 && Exec(init, actions) == Some(s) && InShortRound(s, k, 0)
    ensures var r := Exec(init, actions + ShortRound[..i]); r.Some? && InShortRound(r.value, k, i)
  {
    if i == 0 {
      assert actions + ShortRound[..0] == actions;
    } else {
      StepsOfShortRound(init, actions, s, k, i - 1);
      var a := actions + ShortRound[..i - 1];
      var t := Exec(init, a).value;
      StepOfShortRound(t, k, i - 1);
      ExecStep(init, a, t, ShortRound[i - 1]);
      assert a + [ShortRound[i - 1]] == actions + ShortRound[..i];
    }
  }

  lemma OneShortRound(init: System, actions: seq<Action>, s: System, k: nat)
    requires Exec(init, actions) == Some(s) && FailedShortly(s, k)
    ensures var r := Exec(init, actions + ShortRound); r.Some? && FailedShortly(r.value, k + 1)
  {
    StepsOfShortRound(init, actions, s, k, 7);
    assert ShortRound[..7] == ShortRound;
  }

  lemma {:induction false} ManyShortRounds(init: System, k: nat)
    requires init.m == NewMonitor(Always)
    ensures var r := Exec(init, ShortRounds(k)); r.Some? && FailedShortly(r.value, k)
  {
    if k > 0 {
      ManyShortRounds(init, k - 1);
      OneShortRound(init, ShortRounds(k - 1), Exec(init, ShortRounds(k - 1)).value, k - 1);
    }
  }

  /** A run, 37 short rounds under `always`, after which the wait is not what it should be. */
  lemma BackoffOverflowExample(init: System)
    requires Initial(init) && init.m == NewMonitor(Always)
    ensures var r := Exec(init, ShortRounds(37));
            r.Some? && r.value.m.shortRuns == 37 && SleepNanoseconds(r.value.m) != 100 * Pow2(37) * 1_000_000
  {
    ManyShortRounds(init, 37);
    BackoffExactIff(init, ShortRounds(37), Exec(init, ShortRounds(37)).value);
  }

  /** The milliseconds slept in the first n waits of an unbroken series of short runs. */
  function TotalSleep(n: nat): nat {
    if n == 0 then 0 else TotalSleep(n - 1) + 100 * Pow2(n)
  }

  lemma {:induction false} TotalSleepClosed(n: nat)
    ensures TotalSleep(n) == 100 * (Pow2(n + 1) - 2)
  {
    if n > 0 {
      TotalSleepClosed(n - 1);
    }
  }

  /** By the first wait that is not exact, the exact ones have taken over four centuries. */
  lemma OverflowTakesCenturies()
    ensures TotalSleep(36) > 400 * 366 * 24 * 3600 * 1000
  {
    TotalSleepClosed(36);
    Pow2Of36();
    assert Pow2(37) == 2 * Pow2(36);
  }
}

module Monitor {
  import opened Options
  import Spec = MonitorSpec

  /** The container's state, with its wait channel. */
  class State {
    var running: bool
    var paused: bool
    var restarting: bool
    var pid: int
    var exitCode: int
    var oomKilled: bool
    var error: string
    var startedAt: int
    var finishedAt: int
    var waitChan: nat
    ghost var closed: seq<nat>

    ghost function Status(): Spec.Status
      reads this
    {
      Spec.Status(running, paused, restarting, pid, exitCode, oomKilled, error, startedAt, finishedAt, waitChan, closed)
    }

    /** The current wait channel is open; closing a closed one panics. */
    ghost predicate Valid() reads this { waitChan !in closed && forall c :: c in closed ==> c < waitChan }

    constructor ()
      ensures Valid() && !running && waitChan == 0 && closed == []
    {
      running, paused, restarting, pid, exitCode, oomKilled := false, false, false, 0, 0, false;
      error, startedAt, finishedAt, waitChan, closed := "", 0, 0, 0, [];
    }

    /** `close(s.waitChan); s.waitChan = make(chan struct{})` */
    method Fire()
      requires Valid()
      modifies this`waitChan, this`closed
      ensures Valid() && Status() == Spec.Fire(old(Status()))
      ensures old(waitChan) in closed && waitChan !in closed && waitChan != old(waitChan)
    {
      closed := closed + [waitChan];
      waitChan := waitChan + 1;
    }

    method SetRunning(pid: int, time: int)
      requires Valid()
      modifies this
      ensures Valid() && Status() == Spec.Fire(Spec.AsRunning(old(Status()), pid, time))
      ensures running && !paused && !restarting && exitCode == 0 && this.pid == pid && error == "" && startedAt == time
      ensures oomKilled == old(oomKilled) && finishedAt == old(finishedAt) && waitChan != old(waitChan)
    {
      error, running, paused, restarting, exitCode := "", true, false, false, 0;
      this.pid, startedAt := pid, time;
      Fire();
    }

    method SetStopped(e: Spec.ExitStatus, time: int)
      requires Valid()
      modifies this
      ensures Valid() && Status() == Spec.Fire(Spec.AsStopped(old(Status()), e, time))
      ensures !running && !restarting && pid == 0 && finishedAt == time
      ensures exitCode == e.exitCode && oomKilled == e.oomKilled
      ensures paused == old(paused) && error == old(error) && startedAt == old(startedAt) && waitChan != old(waitChan)
    {
      running, restarting, pid, finishedAt := false, false, 0, time;
      exitCode, oomKilled := e.exitCode, e.oomKilled;
      Fire();
    }

    method SetExitCode(exitCode: int)
      requires Valid()
      modifies this`exitCode
      ensures Valid() && Status() == old(Status()).(exitCode := exitCode)
    {
      this.exitCode := exitCode;
    }

    method SetRestarting(e: Spec.ExitStatus, time: int)
      requires Valid()
      modifies this
      ensures Valid() && Status() == Spec.Fire(Spec.AsRestarting(old(Status()), e, time))
      ensures running && restarting && pid == 0 && finishedAt == time
      ensures exitCode == e.exitCode && oomKilled == e.oomKilled
      ensures paused == old(paused) && error == old(error) && startedAt == old(startedAt) && waitChan != old(waitChan)
    {
      running, restarting, pid, finishedAt := true, true, 0, time;
      exitCode, oomKilled := e.exitCode, e.oomKilled;
      Fire();
    }
  }

  /** The steps of one round of the loop, before each of which a request to stop can come in. */
  datatype Point = BeforeLog | BeforeRun | BeforeCallback | BeforeEnd | BeforeDecision | BeforeMark | BeforeSleep
                 | BeforeWake | BeforeCheck | BeforeLeave

  /** What the world does in one round, and when requests to stop come in. */
  datatype Round = Round(logOk: bool, pid: Option<int>, startedAt: int, failed: bool, exit: Spec.ExitStatus, endedAt: int,
                         seconds: real, timerFirst: bool, stops: set<Point>)

  /** The points after the end of the run. */
  const LateStops: set<Point> := {BeforeDecision, BeforeMark, BeforeSleep, BeforeWake, BeforeCheck}

  /** A stop request before the loop is left for good, or an error of the logs. */
  predicate Ends(r: Round) {
    !r.logOk || r.stops - {BeforeLeave} != {}
  }

  lemma StopsSplit(stops: set<Point>)
    ensures stops - {BeforeLeave} == {} <==>
            && BeforeLog !in stops && BeforeRun !in stops && BeforeCallback !in stops && BeforeEnd !in stops
            && LateStops !! stops
  {
    forall point | point in stops
      ensures point == BeforeLeave || point in stops - {BeforeLeave}
    {
    }
  }

  /** A run that ended with this code, as the last of so many failures in a row, is followed by another one. */
  predicate Restarts(policy: Spec.Policy, exitCode: int, failures: int) {
    policy.Always? || (policy.OnFailure? && exitCode != 0 && (policy.max == 0 || failures <= policy.max))
  }

  predicate Succeeds(r: Round) {
    !r.failed && r.exit.exitCode == 0
  }

  /** The failures in a row at the end of the first `k` rounds. */
  function Failures(rounds: seq<Round>, k: nat): nat
    requires k <= |rounds|
  {
    if k == 0 || Succeeds(rounds[k - 1]) then 0 else Failures(rounds, k - 1) + 1
  }

  /** The process ran in this round, the first one if `restarts` is -1, or failed to start again. */
  predicate Ran(r: Round, restarts: int) {
    r.logOk && !(r.failed && restarts == -1)
  }

  /** How the last run of the rounds up to this one ended; a round whose logs fail has none. */
  function Last(rounds: seq<Round>, round: nat): Spec.ExitStatus
    requires round < |rounds| && (round > 0 || rounds[0].logOk)
  {
    if rounds[round].logOk then rounds[round].exit else rounds[round - 1].exit
  }

  /** After round `k` of a fresh monitor comes another one. */
  predicate GoesOn(policy: Spec.Policy, rounds: seq<Round>, k: nat)
    requires k < |rounds|
  {
    && !Ends(rounds[k]) && !(k == 0 && rounds[0].failed)
    && Restarts(policy, rounds[k].exit.exitCode, Failures(rounds, k + 1))
  }

  lemma {:induction false} AllFailed(policy: Spec.Policy, rounds: seq<Round>, k: nat)
    requires policy.OnFailure? && k <= |rounds| && forall j :: 0 <= j < k ==> GoesOn(policy, rounds, j)
    ensures Failures(rounds, k) == k && (policy.max != 0 ==> k == 0 || k <= policy.max)
  {
    if k > 0 {
      AllFailed(policy, rounds, k - 1);
      assert GoesOn(policy, rounds, k - 1);
    }
  }

  /**
    Under `on-failure` a loop without stop requests and errors of the logs ends only after an exit
    with code zero, a failed first start, or, with a limit, exactly one failing run more than the
    limit; without a limit never after a failing one.
   */
  lemma OnFailureEnds(policy: Spec.Policy, rounds: seq<Round>, k: nat)
    requires policy.OnFailure? && k < |rounds| && !Ends(rounds[k])
    requires (forall j :: 0 <= j < k ==> GoesOn(policy, rounds, j)) && !GoesOn(policy, rounds, k)
    ensures || rounds[k].exit.exitCode == 0
            || (k == 0 && rounds[0].failed)
            || (policy.max != 0 && k == (if policy.max < 0 then 0 else policy.max))
  {
    AllFailed(policy, rounds, k);
  }

  /**
    `containerMonitor`, with the variables of `Start`. Each method takes one action of the step
    system: `now` is the monitor there, and `trace` the actions taken since `init`.
   */
  class ContainerMonitor {
    const container: State
    const restartPolicy: Spec.Policy
    var failureCount: int
    var shouldStop: bool
    var timeIncrement: int
    var restartCount: int
    var afterRun: bool
    var exitStatus: Spec.ExitStatus
    ghost const init: Spec.System
    ghost var now: Spec.Monitor
    ghost var trace: seq<Spec.Action>

    ghost function System(): Spec.System
      reads this, container
    {
      Spec.System(now, container.Status(), init.waiters)
    }

    /** The trace is a run of the step system that ends here, and the fields are those of its monitor. */
    ghost predicate Valid()
      reads this, container
    {
      && container.Valid() && Spec.Initial(init) && Spec.Exec(init, trace) == Some(System())
      && now.policy == restartPolicy && now.failureCount == failureCount && now.timeIncrement == timeIncrement
      && now.shouldStop == shouldStop && now.restartCount == restartCount && now.afterRun == afterRun
      && now.last == exitStatus
    }

    twostate predicate Took(a: Spec.Action)
      reads this, container
    {
      && Spec.Enabled(old(System()), a) && System() == Spec.Apply(old(System()), a)
      && trace == old(trace) + [a]
    }

    constructor (container: State, policy: Spec.Policy, ghost waiters: map<nat, nat>)
      requires container.Valid()
      requires Spec.ChannelsValid(Spec.System(Spec.NewMonitor(policy), container.Status(), waiters))
      ensures Valid() && this.container == container && now == Spec.NewMonitor(policy) && trace == []
    {
      this.container, restartPolicy, failureCount, shouldStop := container, policy, 0, false;
      timeIncrement, restartCount, afterRun := Spec.DefaultTimeIncrement, -1, false;
      exitStatus := Spec.ExitStatus(0, false);
      now, trace, init := Spec.NewMonitor(policy), [], Spec.System(Spec.NewMonitor(policy), container.Status(), waiters);
    }

    /** `ExitOnNext`; closing the stop channel twice would panic, and only the first request closes it. */
    method ExitOnNext()
      requires Valid()
      modifies this`shouldStop, this`now, this`trace
      ensures Valid() && Took(Spec.RequestStop) && shouldStop && now.pc == old(now.pc) && now.runs == old(now.runs)
    {
      Spec.ExecStep(init, trace, System(), Spec.RequestStop);
      if !shouldStop {
        shouldStop := true;
      }
      now, trace := Spec.ExitOnNext(now), trace + [Spec.RequestStop];
    }

    /** The head of the loop. */
    method StartLogging(ok: bool)
      requires Valid() && now.pc.Top?
      modifies this`restartCount, this`now, this`trace
      ensures Valid() && Took(Spec.Log(ok)) && (if ok then now.pc.Ready? else now.pc.Leaving?)
      ensures restartCount == old(restartCount) + 1 && now.runs == old(now.runs)
    {
      Spec.ExecStep(init, trace, System(), Spec.Log(ok));
      now := Spec.Apply(System(), Spec.Log(ok)).m;
      restartCount := restartCount + 1;
      trace := trace + [Spec.Log(ok)];
    }

    /** `Run` begins. */
    ghost method BeginRun()
      requires Valid() && now.pc.Ready?
      modifies this`now, this`trace
      ensures Valid() && Took(Spec.BeginRun) && now.pc.Running? && now.runs == old(now.runs) + 1
    {
      Spec.ExecStep(init, trace, System(), Spec.BeginRun);
      now := Spec.Apply(System(), Spec.BeginRun).m;
      trace := trace + [Spec.BeginRun];
    }

    /** `callback`. */
    method Callback(pid: int, time: int)
      requires Valid() && now.pc.Running?
      modifies this`now, this`trace, container
      ensures Valid() && Took(Spec.Callback(pid, time)) && now.pc.Running? && container.running && container.pid == pid
      ensures now.runs == old(now.runs)
    {
      Spec.ExecStep(init, trace, System(), Spec.Callback(pid, time));
      now := Spec.SignalStart(now);
      container.SetRunning(pid, time);
      trace := trace + [Spec.Callback(pid, time)];
    }

    /** `resetMonitor`, given how long the process ran: the backoff and the failures in a row. */
    method ResetMonitor(successful: bool, seconds: real)
      modifies this`timeIncrement, this`failureCount
      ensures timeIncrement == if seconds > 10.0 then Spec.DefaultTimeIncrement else Spec.Wrap(old(timeIncrement) * 2)
      ensures failureCount == if successful then 0 else old(failureCount) + 1
    {
      if seconds > 10.0 {
        timeIncrement := Spec.DefaultTimeIncrement;
      } else {
        timeIncrement := Spec.Wrap(timeIncrement * 2);
      }
      if successful {
        failureCount := 0;
      } else {
        failureCount := failureCount + 1;
      }
    }

    /** `Run` returns: an error of the first run ends the monitor, anything else resets it. */
    method EndRun(failed: bool, exit: Spec.ExitStatus, seconds: real) returns (goOn: bool)
      requires Valid() && now.pc.Running?
      modifies this, container
      ensures Valid() && Took(Spec.EndRun(failed, exit, seconds > 10.0))
      ensures goOn <==> !(failed && restartCount == 0)
      ensures if goOn then now.pc.Ended? else now.pc.Leaving?
      ensures shouldStop == old(shouldStop) && restartCount == old(restartCount) && now.runs == old(now.runs)
      ensures exitStatus == exit && afterRun == (goOn || old(afterRun))
      ensures goOn ==> failureCount == if !failed && exit.exitCode == 0 then 0 else old(failureCount) + 1
      ensures goOn ==> timeIncrement == if seconds > 10.0 then 100 else Spec.Wrap(old(timeIncrement) * 2)
      ensures !goOn ==> container.exitCode == -1
    {
      ghost var a := Spec.EndRun(failed, exit, seconds > 10.0);
      Spec.ExecStep(init, trace, System(), a);
      ghost var after := Spec.Apply(System(), a);
      exitStatus := exit;
      if failed && restartCount == 0 {
        container.SetExitCode(-1);
        now, trace := after.m, trace + [a];
        return false;
      }
      afterRun := true;
      ResetMonitor(!failed && exit.exitCode == 0, seconds);
      now, trace := after.m, trace + [a];
      goOn := true;
    }

    /** `shouldRestart`. */
    method ShouldRestart() returns (r: bool)
      requires Valid() && now.pc.Ended?
      modifies this`now, this`trace
      ensures Valid() && Took(Spec.Decide) && (if r then now.pc.Marking? else now.pc.Leaving?)
      ensures r <==> !shouldStop &&
                     (restartPolicy.Always? ||
                      (restartPolicy.OnFailure? && exitStatus.exitCode != 0 &&
                       (restartPolicy.max == 0 || failureCount <= restartPolicy.max)))
      ensures now.runs == old(now.runs)
    {
      Spec.ExecStep(init, trace, System(), Spec.Decide);
      now := Spec.Apply(System(), Spec.Decide).m;
      trace := trace + [Spec.Decide];
      if shouldStop {
        return false;
      }
      match restartPolicy
      case Always => return true;
      case OnFailure(max) =>
        if max != 0 && failureCount > max {
          return false;
        }
        return exitStatus.exitCode != 0;
      case Never => return false;
    }

    method MarkRestarting(time: int)
      requires Valid() && now.pc.Marking?
      modifies this`now, this`trace, container
      ensures Valid() && Took(Spec.MarkRestarting(time)) && now.pc.Sleeping? && container.running && container.restarting
      ensures shouldStop == old(shouldStop) && now.runs == old(now.runs)
    {
      Spec.ExecStep(init, trace, System(), Spec.MarkRestarting(time));
      now := Spec.Apply(System(), Spec.MarkRestarting(time)).m;
      container.SetRestarting(exitStatus, time);
      trace := trace + [Spec.MarkRestarting(time)];
    }

    /** `waitForNextRestart`: the timer, or a request to stop, ends the sleep. */
    ghost method Wake(a: Spec.Action)
      requires Valid() && (a.TimerFires? || a.StopWakes?) && Spec.Enabled(System(), a)
      modifies this`now, this`trace
      ensures Valid() && Took(a) && now.pc.Awake? && now.runs == old(now.runs)
    {
      Spec.ExecStep(init, trace, System(), a);
      now := Spec.Apply(System(), a).m;
      trace := trace + [a];
    }

    /** The look at `shouldStop` after the sleep. */
    method Check() returns (goOn: bool)
      requires Valid() && now.pc.Awake?
      modifies this`now, this`trace
      ensures Valid() && Took(Spec.Check) && (goOn <==> !shouldStop) && now.runs == old(now.runs)
      ensures if goOn then now.pc.Top? else now.pc.Leaving?
    {
      Spec.ExecStep(init, trace, System(), Spec.Check);
      now := Spec.Apply(System(), Spec.Check).m;
      trace := trace + [Spec.Check];
      goOn := !shouldStop;
    }

    /** The deferred function. */
    method Leave(time: int)
      requires Valid() && now.pc.Leaving?
      modifies this`now, this`trace, container
      ensures Valid() && Took(Spec.Leave(time)) && now.pc.Gone? && now.runs == old(now.runs)
      ensures afterRun ==>
                !container.running && container.exitCode == exitStatus.exitCode && container.oomKilled == exitStatus.oomKilled
      ensures !afterRun ==> container.exitCode == old(container.exitCode)
    {
      Spec.ExecStep(init, trace, System(), Spec.Leave(time));
      now := Spec.Apply(System(), Spec.Leave(time)).m;
      if afterRun {
        container.SetStopped(exitStatus, time);
      }
      trace := trace + [Spec.Leave(time)];
    }

    /** A request to stop, if one comes in at this point. */
    method Interrupt(r: Round, point: Point)
      requires Valid()
      modifies this`shouldStop, this`now, this`trace
      ensures Valid() && old(trace) <= trace && now.pc == old(now.pc) && now.runs == old(now.runs)
      ensures shouldStop == (old(shouldStop) || point in r.stops)
      ensures point !in r.stops ==> now == old(now)
    {
      if point in r.stops {
        ExitOnNext();
      }
    }

    /** From the head of the loop into the run. */
    method Enter(r: Round) returns (ok: bool)
      requires Valid() && now.pc.Top?
      modifies this`shouldStop, this`restartCount, this`now, this`trace
      ensures Valid() && old(trace) <= trace
      ensures if ok then now.pc.Running? else now.pc.Leaving?
      ensures ok == r.logOk && restartCount == old(restartCount) + 1
      ensures shouldStop == (old(shouldStop) || BeforeLog in r.stops || (ok && BeforeRun in r.stops))
      ensures now.runs == old(now.runs) + if ok then 1 else 0
    {
      Interrupt(r, BeforeLog);
      StartLogging(r.logOk);
      ok := r.logOk;
      if ok {
        Interrupt(r, BeforeRun);
        BeginRun();
      }
    }

    /** What happens while the process runs. */
    method During(r: Round)
      requires Valid() && now.pc.Running?
      modifies this`shouldStop, this`now, this`trace, container
      ensures Valid() && old(trace) <= trace && now.pc.Running? && now.runs == old(now.runs)
      ensures shouldStop == (old(shouldStop) || BeforeCallback in r.stops || BeforeEnd in r.stops)
      ensures restartCount == old(restartCount)
    {
      Interrupt(r, BeforeCallback);
      if r.pid.Some? {
        Callback(r.pid.value, r.startedAt);
      }
      Interrupt(r, BeforeEnd);
    }

    /** The sleep before the next round; when it has been asked to stop and the timer fires too, either can come first. */
    method Sleep(r: Round)
      requires Valid() && now.pc.Sleeping?
      modifies this`shouldStop, this`now, this`trace
      ensures Valid() && old(trace) <= trace && now.pc.Awake? && now.runs == old(now.runs)
      ensures shouldStop == (old(shouldStop) || BeforeSleep in r.stops || BeforeWake in r.stops)
    {
      Interrupt(r, BeforeSleep);
      Interrupt(r, BeforeWake);
      if shouldStop && !r.timerFirst {
        Spec.RunValid(init, trace, System());
        Wake(Spec.StopWakes);
      } else {
        Wake(Spec.TimerFires);
      }
    }

    /** One round of the loop: exactly when another one follows. */
    method OneRound(r: Round) returns (goOn: bool)
      requires Valid() && now.pc.Top?
      modifies this, container
      ensures Valid() && old(trace) <= trace
      ensures if goOn then now.pc.Top? else now.pc.Leaving?
      ensures now.runs == old(now.runs) + if r.logOk then 1 else 0
      ensures goOn ==> !shouldStop && failureCount == (if Succeeds(r) then 0 else old(failureCount) + 1)
      ensures restartCount == old(restartCount) + 1
      ensures goOn <==>
              && !old(shouldStop) && !Ends(r) && !(r.failed && old(restartCount) == -1)
              && Restarts(restartPolicy, r.exit.exitCode, if Succeeds(r) then 0 else old(failureCount) + 1)
      ensures exitStatus == if r.logOk then r.exit else old(exitStatus)
      ensures afterRun == (old(afterRun) || (r.logOk && !(r.failed && old(restartCount) == -1)))
      ensures r.logOk && r.failed && old(restartCount) == -1 ==> container.exitCode == -1
    {
      goOn := Enter(r);
      if !goOn {
        return;
      }
      During(r);
      goOn := EndRun(r.failed, r.exit, r.seconds);
      if !goOn {
        return;
      }
      goOn := Restart(r);
      StopsSplit(r.stops);
    }

    /** From the end of the run to the next one. */
    method Restart(r: Round) returns (goOn: bool)
      requires Valid() && now.pc.Ended?
      modifies this`shouldStop, this`now, this`trace, container
      ensures Valid() && old(trace) <= trace
      ensures if goOn then now.pc.Top? else now.pc.Leaving?
      ensures now.runs == old(now.runs)
      ensures goOn ==> !shouldStop
      ensures goOn <==>
              !old(shouldStop) && LateStops !! r.stops && Restarts(restartPolicy, exitStatus.exitCode, failureCount)
    {
      Interrupt(r, BeforeDecision);
      goOn := ShouldRestart();
      if goOn {
        goOn := Pause(r);
      }
    }

    /** From the decision to restart to the next round. */
    method Pause(r: Round) returns (goOn: bool)
      requires Valid() && now.pc.Marking?
      modifies this`shouldStop, this`now, this`trace, container
      ensures Valid() && old(trace) <= trace && now.runs == old(now.runs)
      ensures if goOn then now.pc.Top? else now.pc.Leaving?
      ensures goOn <==> !shouldStop
      ensures shouldStop == (old(shouldStop) || BeforeMark in r.stops || BeforeSleep in r.stops || BeforeWake in r.stops
                             || BeforeCheck in r.stops)
    {
      Interrupt(r, BeforeMark);
      MarkRestarting(r.endedAt);
      Sleep(r);
      Interrupt(r, BeforeCheck);
      goOn := Check();
    }

    /** The way out of the loop. */
    method Finish(r: Round)
      requires Valid() && now.pc.Leaving?
      modifies this`shouldStop, this`now, this`trace, container
      ensures Valid() && old(trace) <= trace && now.pc.Gone? && now.runs == old(now.runs)
      ensures afterRun ==>
                !container.running && container.exitCode == exitStatus.exitCode && container.oomKilled == exitStatus.oomKilled
      ensures !afterRun ==> container.exitCode == old(container.exitCode)
    {
      Interrupt(r, BeforeLeave);
      Leave(r.endedAt);
    }

    /** What holds of all runs holds here. */
    lemma Honoured()
      requires Valid()
      ensures now.runsAfterStop <= 1 && now.stopCloses <= 1 && now.startCloses <= 1
      ensures restartPolicy.OnFailure? && restartPolicy.max > 0 ==> now.runs <= restartPolicy.max + 1
    {
      Spec.StopIsHonoured(init, trace, System());
      Spec.RunsBounded(init, trace, System());
    }

    /** The loop of `Start`, for as many rounds as the world has in store. */
    method Loop(rounds: seq<Round>) returns (finished: bool, round: nat)
      requires Valid() && now.pc.Top?
      modifies this, container
      ensures Valid() && old(trace) <= trace
      ensures if finished then now.pc.Leaving? && round < |rounds| else now.pc.Top? && round == |rounds|
      ensures now.runs == old(now.runs) + round + if finished && rounds[round].logOk then 1 else 0
      ensures forall k :: 0 <= k < |rounds| && Ends(rounds[k]) ==> finished && round <= k
      ensures !old(shouldStop) && old(restartCount) == -1 && (restartPolicy.OnFailure? ==> old(failureCount) == 0) ==>
                && (forall k :: 0 <= k < round ==> GoesOn(restartPolicy, rounds, k))
                && (finished ==> !GoesOn(restartPolicy, rounds, round))
      ensures finished ==> afterRun == (old(afterRun) || round > 0 || Ran(rounds[0], old(restartCount)))
      ensures finished && (round > 0 || Ran(rounds[0], old(restartCount))) ==> exitStatus == Last(rounds, round)
      ensures finished && round == 0 && rounds[0].logOk && !Ran(rounds[0], old(restartCount)) ==> container.exitCode == -1
    {
      round := 0;
      while round < |rounds|
        invariant round <= |rounds| && Valid() && now.pc.Top? && old(trace) <= trace
        invariant now.runs == old(now.runs) + round && restartCount == old(restartCount) + round
        invariant forall j :: 0 <= j < round ==> !Ends(rounds[j])
        invariant round > 0 || !old(shouldStop) ==> !shouldStop
        invariant if round > 0 then afterRun && exitStatus == rounds[round - 1].exit else afterRun == old(afterRun)
        invariant old(failureCount) == 0 ==> failureCount == Failures(rounds, round)
        invariant !old(shouldStop) && old(restartCount) == -1 && (restartPolicy.OnFailure? ==> old(failureCount) == 0) ==>
                    forall k :: 0 <= k < round ==> GoesOn(restartPolicy, rounds, k)
      {
        var goOn := OneRound(rounds[round]);
        if !goOn {
          return true, round;
        }
        round := round + 1;
      }
      finished := false;
    }

    /** `Start`: it performs a run of the step system, so everything that holds of all runs holds of it. */
    method Start(rounds: seq<Round>) returns (finished: bool, round: nat)
      requires Valid() && now.pc.Top?
      modifies this, container
      ensures Valid() && old(trace) <= trace
      ensures if finished then now.pc.Gone? && round < |rounds| else now.pc.Top? && round == |rounds|
      ensures now.runsAfterStop <= 1 && now.stopCloses <= 1 && now.startCloses <= 1
      ensures restartPolicy.OnFailure? && restartPolicy.max > 0 ==> now.runs <= restartPolicy.max + 1
      ensures now.runs == old(now.runs) + round + if finished && rounds[round].logOk then 1 else 0
      ensures forall k :: 0 <= k < |rounds| && Ends(rounds[k]) ==> finished && round <= k
      // for a fresh monitor: the rounds that are done are exactly those that the policy and the world allow
      ensures !old(shouldStop) && old(restartCount) == -1 && (restartPolicy.OnFailure? ==> old(failureCount) == 0) ==>
                && (forall k :: 0 <= k < round ==> GoesOn(restartPolicy, rounds, k))
                && (finished ==> !GoesOn(restartPolicy, rounds, round))
      ensures && finished && !old(shouldStop) && old(restartCount) == -1 && old(failureCount) == 0
              && restartPolicy.OnFailure? && !Ends(rounds[round]) ==>
                || rounds[round].exit.exitCode == 0
                || (round == 0 && rounds[0].failed)
                || (restartPolicy.max != 0 && now.runs == old(now.runs) + Spec.RunBound(restartPolicy.max))
      ensures finished && restartPolicy.Always? && !old(shouldStop) && old(restartCount) == -1 ==>
                Ends(rounds[round]) || (round == 0 && rounds[0].failed)
      // a container that has run shows how its last run ended
      ensures finished && afterRun ==> !container.running
      ensures finished && (round > 0 || Ran(rounds[0], old(restartCount))) ==>
                && !container.running
                && container.exitCode == Last(rounds, round).exitCode && container.oomKilled == Last(rounds, round).oomKilled
      ensures finished && round == 0 && rounds[0].logOk && !Ran(rounds[0], old(restartCount)) && !old(afterRun) ==>
                container.exitCode == -1
    {
      finished, round := Loop(rounds);
      if finished {
        if && !old(shouldStop) && old(restartCount) == -1 && old(failureCount) == 0
           && restartPolicy.OnFailure? && !Ends(rounds[round]) {
          OnFailureEnds(restartPolicy, rounds, round);
        }
        Finish(rounds[round]);
      }
      Honoured();
    }
  }
}

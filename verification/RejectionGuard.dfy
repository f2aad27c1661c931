/**
 The handler of unhandled rejections in backend/server.js: an alert that is meant to be sent once per
 burst, awaited before the rejection is counted, and a fixed window of counted rejections that shuts
 the server down for a restart.  Rejections interleave at the awaited alert; time does not go back.
 */
module RejectionGuard {
  const WINDOW := 60000
  const LIMIT := 25

  // waiting: rejections whose alert is under way; counted: the times at which rejections were counted,
  // for the record.
  datatype State = State(now: int, burst: nat, windowStart: int, waiting: nat, alerts: nat, counted: seq<int>, stopping: bool)

  // An alert that throws makes the handler reject in turn.
  datatype Action = Arrive | AlertEnds(throws: bool) | Tick(ms: nat)

  function Fresh(now: int): State { State(now, 0, now, 0, 0, [], false) }

  function Counted(s: State): State {
    var over := s.now - s.windowStart > WINDOW;
    var burst := if over then 1 else s.burst + 1;
    s.(burst := burst, windowStart := if over then s.now else s.windowStart,
       counted := s.counted + [s.now], stopping := s.stopping || burst > LIMIT)
  }

  function Arrived(sentry: bool, s: State): State {
    if sentry && s.burst == 0 then s.(waiting := s.waiting + 1, alerts := s.alerts + 1) else Counted(s)
  }

  // An action that is not enabled leaves the state alone.
  function Step(sentry: bool, s: State, a: Action): State {
    match a
    case Arrive => Arrived(sentry, s)
    case AlertEnds(throws) =>
      if s.waiting == 0 then s
      else if throws then Arrived(sentry, s.(waiting := s.waiting - 1))
      else Counted(s.(waiting := s.waiting - 1))
    case Tick(ms) => s.(now := s.now + ms)
  }

  function Run(sentry: bool, s: State, actions: seq<Action>): State {
    if actions == [] then s else Step(sentry, Run(sentry, s, actions[..|actions| - 1]), actions[|actions| - 1])
  }

  // ---------- the handler ----------

  class Process {
    const sentry: bool
    var rejectionBurst: nat
    var rejectionWindowStart: int
    var inProgress: bool
    var waiting: nat
    ghost var alerts: nat
    ghost var counted: seq<int>

    ghost function At(now: int): State
      reads this
    {
      State(now, rejectionBurst, rejectionWindowStart, waiting, alerts, counted, inProgress)
    }

    constructor (sentry: bool, now: int)
      ensures this.sentry == sentry && At(now) == Fresh(now)
    {
      this.sentry, rejectionBurst, rejectionWindowStart, inProgress := sentry, 0, now, false;
      waiting, alerts, counted := 0, 0, [];
    }

    // The part behind the alert.
    method CountRejection(now: int)
      modifies this
      ensures At(now) == Counted(old(At(now)))
    {
      if now - rejectionWindowStart > 60000 {
        rejectionWindowStart := now;
        rejectionBurst := 0;
      }
      rejectionBurst := rejectionBurst + 1;
      counted := counted + [now];
      if rejectionBurst > 25 {
        Shutdown();
      }
    }

    // Only the first call goes on.
    method Shutdown()
      modifies this`inProgress
      ensures inProgress
    {
      if inProgress { return; }
      inProgress := true;
    }

    // Up to the await, or all of it when there is no alert to send.
    method UnhandledRejection(now: int)
      modifies this
      ensures At(now) == Step(sentry, old(At(now)), Arrive)
    {
      if sentry && rejectionBurst == 0 {
        waiting, alerts := waiting + 1, alerts + 1;
      } else {
        CountRejection(now);
      }
    }

    // Behind the await; when the alert throws, the rejection of this handler is the next one.
    method AlertEnded(now: int, throws: bool)
      modifies this
      ensures At(now) == Step(sentry, old(At(now)), AlertEnds(throws))
    {
      if waiting > 0 {
        waiting := waiting - 1;
        if throws {
          UnhandledRejection(now);
        } else {
          CountRejection(now);
        }
      }
    }
  }

  // ---------- alerts ----------

  lemma StepBurst(sentry: bool, s: State, a: Action)
    requires s.burst == 0 <==> s.counted == []
    ensures Step(sentry, s, a).burst == 0 <==> Step(sentry, s, a).counted == []
  {
  }

  lemma {:induction false} RunBurst(sentry: bool, s: State, actions: seq<Action>)
    requires s.burst == 0 <==> s.counted == []
    ensures Run(sentry, s, actions).burst == 0 <==> Run(sentry, s, actions).counted == []
  {
    if actions != [] {
      RunBurst(sentry, s, actions[..|actions| - 1]);
      StepBurst(sentry, Run(sentry, s, actions[..|actions| - 1]), actions[|actions| - 1]);
    }
  }

  // A rejection, one that comes from a throwing alert included, sends an alert exactly if none has been
  // counted yet: while the first alert is under way every rejection sends its own, and after that none
  // does, however many windows go by.
  lemma AlertsExactly(sentry: bool, now: int, actions: seq<Action>)
    ensures var s := Run(sentry, Fresh(now), actions);
      var sent := if sentry && s.counted == [] then 1 else 0;
      && Step(sentry, s, Arrive).alerts == s.alerts + sent
      && (s.waiting > 0 ==> Step(sentry, s, AlertEnds(true)).alerts == s.alerts + sent)
  {
    RunBurst(sentry, Fresh(now), actions);
  }

  lemma {:induction false} NeverAgain(sentry: bool, s: State, actions: seq<Action>)
    requires s.burst > 0
    ensures Run(sentry, s, actions).alerts == s.alerts && Run(sentry, s, actions).burst > 0
  {
    if actions != [] {
      NeverAgain(sentry, s, actions[..|actions| - 1]);
    }
  }

  // Once a rejection has been counted, the process never alerts again.
  lemma AlertsStop(sentry: bool, now: int, before: seq<Action>, after: seq<Action>)
    requires Run(sentry, Fresh(now), before).counted != []
    ensures var s := Run(sentry, Fresh(now), before);
      Run(sentry, s, after).alerts == s.alerts
  {
    RunBurst(sentry, Fresh(now), before);
    NeverAgain(sentry, Run(sentry, Fresh(now), before), after);
  }

  // If every alert throws, nothing is ever counted, so the guard never acts, and alerts go on for ever.
  lemma {:induction false} FailingAlerts(now: int, actions: seq<Action>)
    requires forall a | a in actions :: a != AlertEnds(false)
    ensures var s := Run(true, Fresh(now), actions);
      s.counted == [] && s.burst == 0 && !s.stopping
      && (s.waiting > 0 ==> Step(true, s, AlertEnds(true)) == s.(alerts := s.alerts + 1))
  {
    if actions != [] {
      var k := |actions| - 1;
      assert actions[k] in actions && forall a | a in actions[..k] :: a in actions;
      FailingAlerts(now, actions[..k]);
    }
  }

  // ---------- the window ----------

  // The index of the first rejection counted in the window.
  function First(s: State): int { |s.counted| - s.burst }

  ghost predicate InOrder(s: State) {
    && (forall i, j | 0 <= i < j < |s.counted| :: s.counted[i] <= s.counted[j])
    && (forall i | 0 <= i < |s.counted| :: s.counted[i] <= s.now)
    && s.windowStart <= s.now
  }

  // The last `burst` counted rejections lie in the window, which was opened by the first of them unless
  // it is the window the process started with.
  ghost predicate Windowed(s: State) {
    && s.burst <= |s.counted|
    && (forall i | First(s) <= i < |s.counted| :: s.windowStart <= s.counted[i] <= s.windowStart + WINDOW)
    && (First(s) > 0 ==> s.burst > 0 && s.counted[First(s)] == s.windowStart)
  }

  // 26 rejections within a window's length.
  ghost predicate Crowded(counted: seq<int>) {
    exists i :: 0 <= i < |counted| - LIMIT && counted[i + LIMIT] - counted[i] <= WINDOW
  }

  // As long as the guard has not acted, windows hold at most LIMIT each, so what lies more than LIMIT
  // before the open window lies more than a window's length before it.
  ghost predicate Quiet(s: State) {
    !s.stopping ==>
      && s.burst <= LIMIT
      && (forall i | 0 <= i < First(s) - LIMIT :: s.windowStart - s.counted[i] > WINDOW)
      && (forall i | 0 <= i < |s.counted| - 2 * LIMIT :: s.counted[i + 2 * LIMIT] - s.counted[i] > WINDOW)
  }

  ghost predicate Inv(s: State) {
    InOrder(s) && Windowed(s) && Quiet(s) && (s.stopping ==> Crowded(s.counted))
  }

  lemma CountedKeeps(s: State)
    requires Inv(s)
    ensures Inv(Counted(s))
  {
    hide Quiet, Crowded;
    var s' := Counted(s);
    assert InOrder(s') && Windowed(s');
    assert Quiet(s') by {
      CountedQuiet(s);
    }
    if s'.stopping {
      CountedCrowded(s);
    }
  }

  lemma CountedQuiet(s: State)
    requires InOrder(s) && Windowed(s) && Quiet(s)
    ensures Quiet(Counted(s))
  {
    var s', n := Counted(s), |s.counted|;
    if !s'.stopping {
      forall i | 0 <= i < First(s') - LIMIT
        ensures s'.windowStart - s'.counted[i] > WINDOW
      {
        assert s'.counted[i] == s.counted[i];
        if First(s') == n {
          assert i < First(s) && s.counted[i] <= s.counted[First(s)] == s.windowStart;
        }
      }
      forall i | 0 <= i < |s'.counted| - 2 * LIMIT
        ensures s'.counted[i + 2 * LIMIT] - s'.counted[i] > WINDOW
      {
        assert s'.counted[i] == s.counted[i];
        if i + 2 * LIMIT == n {
          assert i < First(s') - LIMIT;
          assert s'.windowStart - s'.counted[i] > WINDOW;
        } else {
          assert s'.counted[i + 2 * LIMIT] == s.counted[i + 2 * LIMIT];
        }
      }
    }
  }

  lemma CountedCrowded(s: State)
    requires InOrder(s) && Windowed(s) && (s.stopping ==> Crowded(s.counted)) && Counted(s).stopping
    ensures Crowded(Counted(s).counted)
  {
    var s', n := Counted(s), |s.counted|;
    if s.stopping {
      var i :| 0 <= i < n - LIMIT && s.counted[i + LIMIT] - s.counted[i] <= WINDOW;
      assert s'.counted[i + LIMIT] - s'.counted[i] <= WINDOW;
    } else {
      var i := n - LIMIT;
      assert s.windowStart <= s.counted[i] == s'.counted[i];
      assert s'.counted[i + LIMIT] - s'.counted[i] <= WINDOW;
    }
  }

  // Neither the clock nor the alerts touch the window.
  lemma OtherwiseKeeps(s: State, waiting: nat, alerts: nat, ms: nat)
    requires Inv(s)
    ensures Inv(s.(waiting := waiting, alerts := alerts, now := s.now + ms))
  {
    hide Crowded;
  }

  lemma ArrivedKeeps(sentry: bool, s: State)
    requires Inv(s)
    ensures Inv(Arrived(sentry, s))
  {
    hide Inv, Counted;
    if sentry && s.burst == 0 {
      OtherwiseKeeps(s, s.waiting + 1, s.alerts + 1, 0);
    } else {
      CountedKeeps(s);
    }
  }

  lemma StepKeeps(sentry: bool, s: State, a: Action)
    requires Inv(s)
    ensures Inv(Step(sentry, s, a))
  {
    hide Inv, Counted, Arrived;
    match a
    case Arrive => ArrivedKeeps(sentry, s);
    case AlertEnds(throws) =>
      if s.waiting > 0 {
        OtherwiseKeeps(s, s.waiting - 1, s.alerts, 0);
        if throws {
          ArrivedKeeps(sentry, s.(waiting := s.waiting - 1));
        } else {
          CountedKeeps(s.(waiting := s.waiting - 1));
        }
      }
    case Tick(ms) => OtherwiseKeeps(s, s.waiting, s.alerts, ms);
  }

  lemma {:induction false} RunKeeps(sentry: bool, now: int, actions: seq<Action>)
    ensures Inv(Run(sentry, Fresh(now), actions))
  {
    if actions != [] {
      RunKeeps(sentry, now, actions[..|actions| - 1]);
      StepKeeps(sentry, Run(sentry, Fresh(now), actions[..|actions| - 1]), actions[|actions| - 1]);
    }
  }

  // In every run: the guard shuts the server down only if 26 rejections were counted within 60 s, and it
  // does so if 51 were.
  lemma GuardActs(sentry: bool, now: int, actions: seq<Action>)
    ensures var s := Run(sentry, Fresh(now), actions);
      && (s.stopping ==> exists i :: 0 <= i < |s.counted| - 25 && s.counted[i + 25] - s.counted[i] <= 60000)
      && ((exists i :: 0 <= i < |s.counted| - 50 && s.counted[i + 50] - s.counted[i] <= 60000) ==> s.stopping)
  {
    RunKeeps(sentry, now, actions);
  }

  // ---------- exactly when the guard acts ----------

  // The start of the window that rejection i falls in: windows are opened one after the other, each by the
  // first rejection too late for the one before, the first of all with the process at t0.
  function WindowOf(counted: seq<int>, t0: int, i: nat): int
    requires i < |counted|
  {
    var before := if i == 0 then t0 else WindowOf(counted, t0, i - 1);
    if counted[i] - before > WINDOW then counted[i] else before
  }

  // 26 rejections in a row that fall in one window.
  ghost predicate Overfull(counted: seq<int>, t0: int) {
    exists i :: 0 <= i < |counted| - LIMIT && WindowOf(counted, t0, i) == WindowOf(counted, t0, i + LIMIT)
  }

  lemma {:induction false} WindowOfAppend(counted: seq<int>, x: int, t0: int, i: nat)
    requires i < |counted|
    ensures WindowOf(counted + [x], t0, i) == WindowOf(counted, t0, i)
  {
    if i > 0 {
      WindowOfAppend(counted, x, t0, i - 1);
    }
  }

  lemma {:induction false} WindowsGrow(counted: seq<int>, t0: int, i: nat, j: nat)
    requires i <= j < |counted|
    ensures WindowOf(counted, t0, i) <= WindowOf(counted, t0, j)
  {
    if i < j {
      WindowsGrow(counted, t0, i, j - 1);
    }
  }

  // The open window is that of the last rejection, and `burst` counts those that fall in it.
  ghost predicate Placed(s: State, t0: int) {
    && s.burst <= |s.counted|
    && s.windowStart == (if s.counted == [] then t0 else WindowOf(s.counted, t0, |s.counted| - 1))
    && (forall i | 0 <= i < |s.counted| :: WindowOf(s.counted, t0, i) == s.windowStart <==> First(s) <= i)
  }

  ghost predicate Exact(s: State, t0: int) {
    Placed(s, t0) && (s.stopping <==> Overfull(s.counted, t0))
  }

  lemma CountedPlaced(s: State, t0: int)
    requires Placed(s, t0)
    ensures Placed(Counted(s), t0)
  {
    var s', n := Counted(s), |s.counted|;
    assert s'.counted == s.counted + [s.now];
    forall i | 0 <= i < n
      ensures WindowOf(s'.counted, t0, i) == WindowOf(s.counted, t0, i) <= s.windowStart
    {
      WindowOfAppend(s.counted, s.now, t0, i);
      WindowsGrow(s.counted, t0, i, n - 1);
    }
    assert WindowOf(s'.counted, t0, n) == s'.windowStart;
  }

  lemma CountedExact(s: State, t0: int)
    requires Exact(s, t0)
    ensures Exact(Counted(s), t0)
  {
    var s', n := Counted(s), |s.counted|;
    CountedPlaced(s, t0);
    hide Placed;
    forall i | 0 <= i < n
      ensures WindowOf(s'.counted, t0, i) == WindowOf(s.counted, t0, i)
    {
      WindowOfAppend(s.counted, s.now, t0, i);
    }
    LastFull(s', t0);
    if i :| 0 <= i < n - LIMIT && WindowOf(s.counted, t0, i) == WindowOf(s.counted, t0, i + LIMIT) {
      assert WindowOf(s'.counted, t0, i) == WindowOf(s'.counted, t0, i + LIMIT);
    }
    if i :| 0 <= i < n + 1 - LIMIT && WindowOf(s'.counted, t0, i) == WindowOf(s'.counted, t0, i + LIMIT) {
      if i + LIMIT < n {
        assert WindowOf(s.counted, t0, i) == WindowOf(s.counted, t0, i + LIMIT);
      }
    }
  }

  // The open window has more than LIMIT exactly if the last rejection shares it with the one LIMIT before.
  lemma LastFull(s: State, t0: int)
    requires Placed(s, t0) && s.counted != []
    ensures var n := |s.counted|;
      s.burst > LIMIT <==> n > LIMIT && WindowOf(s.counted, t0, n - 1 - LIMIT) == WindowOf(s.counted, t0, n - 1)
  {
  }

  lemma OtherwiseExact(s: State, t0: int, waiting: nat, alerts: nat, ms: nat)
    requires Exact(s, t0)
    ensures Exact(s.(waiting := waiting, alerts := alerts, now := s.now + ms), t0)
  {
    hide Overfull, WindowOf;
  }

  lemma ArrivedExact(sentry: bool, s: State, t0: int)
    requires Exact(s, t0)
    ensures Exact(Arrived(sentry, s), t0)
  {
    hide Exact, Counted;
    if sentry && s.burst == 0 {
      OtherwiseExact(s, t0, s.waiting + 1, s.alerts + 1, 0);
    } else {
      CountedExact(s, t0);
    }
  }

  lemma StepIsExact(sentry: bool, s: State, t0: int, a: Action)
    requires Exact(s, t0)
    ensures Exact(Step(sentry, s, a), t0)
  {
    hide Exact, Counted, Arrived;
    match a
    case Arrive => ArrivedExact(sentry, s, t0);
    case AlertEnds(throws) =>
      if s.waiting > 0 {
        OtherwiseExact(s, t0, s.waiting - 1, s.alerts, 0);
        if throws {
          ArrivedExact(sentry, s.(waiting := s.waiting - 1), t0);
        } else {
          CountedExact(s.(waiting := s.waiting - 1), t0);
        }
      }
    case Tick(ms) => OtherwiseExact(s, t0, s.waiting, s.alerts, ms);
  }

  lemma {:induction false} RunExact(sentry: bool, now: int, actions: seq<Action>)
    ensures Exact(Run(sentry, Fresh(now), actions), now)
  {
    if actions != [] {
      hide Exact, Step;
      RunExact(sentry, now, actions[..|actions| - 1]);
      StepIsExact(sentry, Run(sentry, Fresh(now), actions[..|actions| - 1]), now, actions[|actions| - 1]);
    }
  }

  // In every run, the guard has shut the server down if and only if some window holds 26 rejections.
  lemma GuardExactly(sentry: bool, now: int, actions: seq<Action>)
    ensures var s := Run(sentry, Fresh(now), actions);
      s.stopping <==> Overfull(s.counted, now)
  {
    hide Run, Placed, Overfull;
    RunExact(sentry, now, actions);
  }

  // ---------- fifty go by ----------

  function Arrivals(n: nat): seq<Action> { if n == 0 then [] else Arrivals(n - 1) + [Arrive] }
  function Times(t: int, n: nat): (r: seq<int>)
    ensures |r| == n && forall i | 0 <= i < n :: r[i] == t
  {
    if n == 0 then [] else Times(t, n - 1) + [t]
  }

  lemma {:induction false} RunTwo(sentry: bool, s: State, a: seq<Action>, b: seq<Action>)
    ensures Run(sentry, s, a + b) == Run(sentry, Run(sentry, s, a), b)
  {
    hide Step;
    if b == [] {
      assert a + b == a;
    } else {
      var k := |b| - 1;
      RunTwo(sentry, s, a, b[..k]);
      assert (a + b)[..|a + b| - 1] == a + b[..k];
      assert (a + b)[|a + b| - 1] == b[k];
    }
  }

  // Up to 25 rejections in one window.
  lemma {:induction false} ArrivalsCount(s: State, n: nat)
    requires s.burst == 0 || s.now - s.windowStart > WINDOW
    requires 0 < n <= LIMIT && !s.stopping
    ensures var over := s.now - s.windowStart > WINDOW;
      Run(false, s, Arrivals(n))
        == s.(burst := n, windowStart := if over then s.now else s.windowStart, counted := s.counted + Times(s.now, n))
  {
    hide Run, Arrivals, Times;
    ArrivalsRun(s, n);
    TimesStep(s.now, n);
    var counted := s.counted + Times(s.now, n);
    if n == 1 {
      ArrivalsNone(s);
      assert counted == s.counted + [s.now];
    } else {
      ArrivalsCount(s, n - 1);
      assert counted == (s.counted + Times(s.now, n - 1)) + [s.now];
    }
  }

  lemma TimesStep(t: int, n: nat)
    requires n > 0
    ensures Times(t, n) == Times(t, n - 1) + [t] && Times(t, 0) == []
  {
  }

  lemma ArrivalsNone(s: State)
    ensures Run(false, s, Arrivals(0)) == s
  {
  }

  lemma ArrivalsRun(s: State, n: nat)
    requires n > 0
    ensures Run(false, s, Arrivals(n)) == Counted(Run(false, s, Arrivals(n - 1)))
  {
    hide Counted;
    ArrivalsLength(n - 1);
    ArrivalsLength(n);
    assert Arrivals(n)[..n - 1] == Arrivals(n - 1);
  }

  lemma {:induction false} ArrivalsLength(n: nat)
    ensures |Arrivals(n)| == n && (n > 0 ==> Arrivals(n)[n - 1] == Arrive)
  {
    if n > 0 {
      ArrivalsLength(n - 1);
    }
  }

  lemma RunTick(s: State, ms: nat)
    ensures Run(false, s, [Tick(ms)]) == s.(now := s.now + ms)
  {
    assert [Tick(ms)][..0] == [];
    assert Run(false, s, []) == s;
  }

  // 50 is the most that can be missed: 25 rejections at the end of the first window and 25 just after it,
  // all within 1 ms, are counted without a shutdown.
  lemma FiftyGoBy()
    ensures exists actions :: var s := Run(false, Fresh(0), actions);
      |s.counted| == 50 && s.counted[49] - s.counted[0] == 1 && !s.stopping
  {
    hide Run, Times, Arrivals;
    var a1 := [Tick(WINDOW)];
    var a2 := a1 + Arrivals(25);
    var a3 := a2 + [Tick(1)];
    var a4 := a3 + Arrivals(25);
    RunTick(Fresh(0), WINDOW);
    RunTwo(false, Fresh(0), a1, Arrivals(25));
    ArrivalsCount(Run(false, Fresh(0), a1), 25);
    RunTwo(false, Fresh(0), a2, [Tick(1)]);
    RunTick(Run(false, Fresh(0), a2), 1);
    RunTwo(false, Fresh(0), a3, Arrivals(25));
    ArrivalsCount(Run(false, Fresh(0), a3), 25);
    var s := Run(false, Fresh(0), a4);
    assert s.counted == ([] + Times(WINDOW, 25)) + Times(WINDOW + 1, 25);
    assert |s.counted| == 50 && s.counted[49] - s.counted[0] == 1 && !s.stopping;
  }

  // ---------- nothing is lost ----------

  function Rejections(actions: seq<Action>): nat {
    if actions == [] then 0
    else Rejections(actions[..|actions| - 1]) + if actions[|actions| - 1] == Arrive then 1 else 0
  }

  // In every run each rejection is either counted, once, or waiting for its alert, however often alerts
  // throw; and without a rejection there is no alert.
  lemma {:induction false} RejectionsAreConserved(sentry: bool, now: int, actions: seq<Action>)
    ensures var s := Run(sentry, Fresh(now), actions);
      Rejections(actions) == |s.counted| + s.waiting && (Rejections(actions) == 0 ==> s.alerts == 0)
  {
    if actions != [] {
      RejectionsAreConserved(sentry, now, actions[..|actions| - 1]);
    }
  }
}

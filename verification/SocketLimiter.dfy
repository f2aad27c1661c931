/**
 The per-socket event limiter of backend/server.js: one fixed window per event name, opened by the
 first event and replaced by the first event more than WINDOW ms later.  What a fixed window promises
 over a sliding interval is worked out exactly, for every trace of events with a clock that never
 runs backwards.
 */
module SocketLimiter {
  import opened Wrappers

  const WINDOW := 10000
  const LIMIT := 10

  datatype Bucket = Bucket(windowStart: int, count: nat)
  datatype Event = Event(name: string, time: int)

  // One event: open a window if there is none or the old one is over, then count.
  function Touch(b: Option<Bucket>, now: int): Bucket {
    if b.None? || now - b.value.windowStart > WINDOW then Bucket(now, 1)
    else b.value.(count := b.value.count + 1)
  }

  class RateLimiter {
    var eventBuckets: map<string, Bucket>
    ghost var trace: seq<Event>

    ghost predicate Valid()
      reads this
    {
      forall name :: (if name in eventBuckets then Some(eventBuckets[name]) else None) == BucketAfter(trace, name)
    }

    constructor ()
      ensures Valid() && trace == []
    {
      eventBuckets, trace := map[], [];
    }

    method IsRateLimited(event: string, now: int) returns (limited: bool)
      requires Valid()
      modifies this
      ensures Valid() && trace == old(trace) + [Event(event, now)]
      ensures limited <==> !Admitted(trace, |trace| - 1)
    {
      ghost var trace0 := trace;
      assert BucketAfter(trace0, event) == if event in eventBuckets then Some(eventBuckets[event]) else None;
      if event !in eventBuckets || now - eventBuckets[event].windowStart > WINDOW {
        eventBuckets := eventBuckets[event := Bucket(now, 0)];
      }
      var bucket := eventBuckets[event];
      eventBuckets := eventBuckets[event := bucket.(count := bucket.count + 1)];
      limited := bucket.count + 1 > LIMIT;
      trace := trace + [Event(event, now)];
      assert trace[..|trace0|] == trace0;
    }
  }

  // ---------- traces ----------

  ghost function BucketAfter(trace: seq<Event>, name: string): Option<Bucket> {
    if trace == [] then None
    else
      var k := |trace| - 1;
      var b := BucketAfter(trace[..k], name);
      if trace[k].name == name then Some(Touch(b, trace[k].time)) else b
  }

  // Event i of the trace is let through.
  ghost predicate Admitted(trace: seq<Event>, i: nat)
    requires i < |trace|
  {
    Touch(BucketAfter(trace[..i], trace[i].name), trace[i].time).count <= LIMIT
  }

  ghost predicate ClockRuns(trace: seq<Event>) {
    forall i, j | 0 <= i < j < |trace| :: trace[i].time <= trace[j].time
  }

  // How many events called `name` are let through at times t .. t + len.
  ghost function AdmittedIn(trace: seq<Event>, name: string, t: int, len: nat): nat {
    if trace == [] then 0
    else
      var k := |trace| - 1;
      AdmittedIn(trace[..k], name, t, len)
      + (if trace[k].name == name && t <= trace[k].time <= t + len && Admitted(trace, k) then 1 else 0)
  }

  // How many events called `name` happen at time t or later.
  ghost function SeenSince(trace: seq<Event>, name: string, t: int): nat {
    if trace == [] then 0
    else
      var k := |trace| - 1;
      SeenSince(trace[..k], name, t) + (if trace[k].name == name && t <= trace[k].time then 1 else 0)
  }

  lemma Append(trace: seq<Event>, e: Event, name: string, t: int, len: nat)
    ensures BucketAfter(trace + [e], name)
         == if e.name == name then Some(Touch(BucketAfter(trace, name), e.time)) else BucketAfter(trace, name)
    ensures AdmittedIn(trace + [e], name, t, len)
         == AdmittedIn(trace, name, t, len)
            + if e.name == name && t <= e.time <= t + len && Touch(BucketAfter(trace, name), e.time).count <= LIMIT then 1 else 0
    ensures SeenSince(trace + [e], name, t)
         == SeenSince(trace, name, t) + if e.name == name && t <= e.time then 1 else 0
  {
    assert (trace + [e])[..|trace|] == trace;
  }

  // ---------- the sliding bound ----------

  // The most that can be let through in windows opened before one that starts x ms into the interval.
  function Earlier(x: nat): nat {
    LIMIT * (x / (WINDOW + 1)) + (if x % (WINDOW + 1) == 0 then 0 else LIMIT - 1)
  }

  // The most that can be let through in an interval of len ms.
  function Bound(len: nat): nat { Earlier(len) + LIMIT }

  lemma EarlierGrows(x: nat, y: nat)
    requires x <= y
    ensures Earlier(x) <= Earlier(y)
  {
  }

  lemma EarlierNextWindow(x: nat, y: nat)
    requires x + WINDOW < y
    ensures Earlier(x) + LIMIT <= Earlier(y)
  {
    EarlierGrows(x + WINDOW + 1, y);
  }

  // What has been let through since t, by the position of the open window.
  ghost predicate WithinBudget(b: Option<Bucket>, n: nat, t: int) {
    match b
    case None => n == 0
    case Some(b) =>
      && b.count >= 1
      && if b.windowStart < t then n <= b.count - 1 && n <= LIMIT - 1 && (n > 0 ==> t <= b.windowStart + WINDOW)
         else n <= (if b.count < LIMIT then b.count else LIMIT) + Earlier(b.windowStart - t)
  }

  // A window is opened by an event of the trace, so it never starts in the future.
  lemma {:induction false} WindowOpened(trace: seq<Event>, name: string)
    ensures var b := BucketAfter(trace, name); b.Some? ==> exists i :: 0 <= i < |trace| && trace[i].time == b.value.windowStart
  {
    if trace != [] {
      var k := |trace| - 1;
      WindowOpened(trace[..k], name);
      var b, b' := BucketAfter(trace[..k], name), BucketAfter(trace, name);
      if b.Some? && b'.value.windowStart == b.value.windowStart {
        var i :| 0 <= i < k && trace[..k][i].time == b.value.windowStart;
        assert trace[i].time == b'.value.windowStart;
      }
    }
  }

  lemma BudgetStep(b: Option<Bucket>, n: nat, t: int, now: int)
    requires WithinBudget(b, n, t)
    requires b.Some? ==> b.value.windowStart <= now
    ensures WithinBudget(Some(Touch(b, now)), n + (if t <= now && Touch(b, now).count <= LIMIT then 1 else 0), t)
  {
    if b.Some? && t <= b.value.windowStart && now - b.value.windowStart > WINDOW {
      EarlierNextWindow(b.value.windowStart - t, now - t);
    }
  }

  lemma WithinBudgetFewer(b: Option<Bucket>, n: nat, m: nat, t: int)
    requires WithinBudget(b, n, t) && m <= n
    ensures WithinBudget(b, m, t)
  {
  }

  lemma {:induction false} BudgetKept(trace: seq<Event>, name: string, t: int, len: nat)
    requires ClockRuns(trace)
    ensures WithinBudget(BucketAfter(trace, name), AdmittedIn(trace, name, t, len), t)
  {
    if trace != [] {
      var k := |trace| - 1;
      var e, before := trace[k], trace[..k];
      assert trace == before + [e];
      BudgetKept(before, name, t, len);
      WindowOpened(before, name);
      Append(before, e, name, t, len);
      var b, n := BucketAfter(before, name), AdmittedIn(before, name, t, len);
      if e.name == name {
        BudgetStep(b, n, t, e.time);
        WithinBudgetFewer(Some(Touch(b, e.time)), n + (if t <= e.time && Touch(b, e.time).count <= LIMIT then 1 else 0),
                          AdmittedIn(trace, name, t, len), t);
      }
    }
  }

  lemma {:induction false} BoundHolds(trace: seq<Event>, name: string, t: int, len: nat)
    requires ClockRuns(trace)
    ensures AdmittedIn(trace, name, t, len) <= Bound(len)
  {
    if trace != [] {
      var k := |trace| - 1;
      assert trace == trace[..k] + [trace[k]];
      Append(trace[..k], trace[k], name, t, len);
      if trace[k].name == name && t <= trace[k].time <= t + len {
        BudgetKept(trace, name, t, len);
        WindowOpened(trace, name);
        var b := BucketAfter(trace, name).value;
        if t <= b.windowStart {
          EarlierGrows(b.windowStart - t, len);
        }
      } else {
        BoundHolds(trace[..k], name, t, len);
      }
    }
  }

  // However events and instants are chosen, an interval of len ms lets through at most Bound(len) events of one name.
  lemma SlidingBound(trace: seq<Event>, name: string, t: int, len: nat)
    requires ClockRuns(trace)
    ensures AdmittedIn(trace, name, t, len) <= Bound(len)
    ensures Bound(len) == 10 * (len / 10001) + if len % 10001 == 0 then 10 else 19
    ensures AdmittedIn(trace, name, t, len) <= 10 * (len / 10000 + 2)
    ensures len <= 10000 ==> AdmittedIn(trace, name, t, len) <= 19
  {
    BoundHolds(trace, name, t, len);
  }

  // ---------- the bound is attained ----------

  ghost function Burst(name: string, time: int, n: nat): seq<Event> {
    if n == 0 then [] else Burst(name, time, n - 1) + [Event(name, time)]
  }

  // n full windows, as close together as they can be.
  ghost function Waves(name: string, base: int, n: nat): seq<Event> {
    if n == 0 then []
    else Waves(name, base, n - 1) + Burst(name, base + (WINDOW + 1) * (n - 1), LIMIT)
  }

  ghost predicate Before(trace: seq<Event>, time: int) {
    forall e | e in trace :: e.time <= time
  }

  lemma ClockAppend(trace: seq<Event>, e: Event)
    requires ClockRuns(trace) && Before(trace, e.time)
    ensures ClockRuns(trace + [e]) && Before(trace + [e], e.time)
  {
  }

  ghost predicate CanOpen(trace: seq<Event>, name: string, time: int) {
    var b := BucketAfter(trace, name);
    && ClockRuns(trace) && Before(trace, time)
    && (b.None? || time - b.value.windowStart > WINDOW)
  }

  // trace' lets through n more events of the interval than trace, the last of them in a window opened at time.
  ghost predicate Passed(trace: seq<Event>, trace': seq<Event>, name: string, time: int, n: nat, count: nat, t: int, len: nat) {
    && ClockRuns(trace') && Before(trace', time)
    && AdmittedIn(trace', name, t, len) == AdmittedIn(trace, name, t, len) + n
    && BucketAfter(trace', name) == if count == 0 then BucketAfter(trace, name) else Some(Bucket(time, count))
  }

  lemma {:induction false} BurstAdmitted(trace: seq<Event>, name: string, time: int, n: nat, t: int, len: nat)
    requires CanOpen(trace, name, time) && n <= LIMIT && t <= time <= t + len
    ensures Passed(trace, trace + Burst(name, time, n), name, time, n, n, t, len)
  {
    hide AdmittedIn, BucketAfter, SeenSince;
    if n == 0 {
      assert trace + Burst(name, time, 0) == trace;
    } else {
      BurstAdmitted(trace, name, time, n - 1, t, len);
      var trace', e := trace + Burst(name, time, n - 1), Event(name, time);
      assert trace + Burst(name, time, n) == trace' + [e];
      Append(trace', e, name, t, len);
      ClockAppend(trace', e);
    }
  }

  lemma {:induction false} WavesAdmitted(trace: seq<Event>, name: string, base: int, n: nat, t: int, len: nat)
    requires CanOpen(trace, name, base) && t <= base
    requires n > 0 ==> base + (WINDOW + 1) * (n - 1) <= t + len
    ensures AdmittedIn(trace + Waves(name, base, n), name, t, len) == AdmittedIn(trace, name, t, len) + LIMIT * n
    ensures CanOpen(trace + Waves(name, base, n), name, base + (WINDOW + 1) * n)
  {
    hide AdmittedIn, BucketAfter, Burst;
    if n == 0 {
      assert trace + Waves(name, base, 0) == trace;
    } else {
      WavesAdmitted(trace, name, base, n - 1, t, len);
      var trace', time := trace + Waves(name, base, n - 1), base + (WINDOW + 1) * (n - 1);
      BurstAdmitted(trace', name, time, LIMIT, t, len);
      assert trace + Waves(name, base, n) == trace' + Burst(name, time, LIMIT);
    }
  }

  lemma OneEvent(name: string, len: nat)
    ensures CanOpen([Event(name, 0)], name, WINDOW + 1) && Before([Event(name, 0)], WINDOW)
    ensures AdmittedIn([Event(name, 0)], name, WINDOW, len) == 0
    ensures BucketAfter([Event(name, 0)], name) == Some(Bucket(0, 1))
  {
    assert [] + [Event(name, 0)] == [Event(name, 0)];
    Append([], Event(name, 0), name, WINDOW, len);
  }

  // A window opened at 0 still lets 9 events through at its very end.
  lemma {:induction false} LateWindow(name: string, n: nat, len: nat)
    requires n <= 9
    ensures var trace := [Event(name, 0)] + Burst(name, WINDOW, n);
      && CanOpen(trace, name, WINDOW + 1) && Before(trace, WINDOW)
      && AdmittedIn(trace, name, WINDOW, len) == n
      && BucketAfter(trace, name) == Some(Bucket(0, n + 1))
  {
    hide AdmittedIn, BucketAfter, SeenSince;
    var first := [Event(name, 0)];
    if n == 0 {
      OneEvent(name, len);
      assert first + Burst(name, WINDOW, 0) == first;
    } else {
      LateWindow(name, n - 1, len);
      var trace := first + Burst(name, WINDOW, n - 1);
      assert first + Burst(name, WINDOW, n) == trace + [Event(name, WINDOW)];
      Append(trace, Event(name, WINDOW), name, WINDOW, len);
      ClockAppend(trace, Event(name, WINDOW));
    }
  }

  lemma AttainedOnTheBeat(name: string, len: nat)
    requires len % (WINDOW + 1) == 0
    ensures exists trace, t :: ClockRuns(trace) && AdmittedIn(trace, name, t, len) == Bound(len)
  {
    hide Burst, Waves;
    var q := len / (WINDOW + 1);
    WavesAdmitted([], name, 0, q + 1, 0, len);
    hide AdmittedIn, BucketAfter;
    var trace := [] + Waves(name, 0, q + 1);
    assert ClockRuns(trace) && AdmittedIn(trace, name, 0, len) == Bound(len);
  }

  lemma AttainedOffTheBeat(name: string, len: nat)
    requires len % (WINDOW + 1) != 0
    ensures exists trace, t :: ClockRuns(trace) && AdmittedIn(trace, name, t, len) == Bound(len)
  {
    hide Burst, Waves, AdmittedIn, BucketAfter;
    var q := len / (WINDOW + 1);
    LateWindow(name, 9, len);
    var opening := [Event(name, 0)] + Burst(name, WINDOW, 9);
    WavesAdmitted(opening, name, WINDOW + 1, q + 1, WINDOW, len);
    var trace := opening + Waves(name, WINDOW + 1, q + 1);
    assert ClockRuns(trace) && AdmittedIn(trace, name, WINDOW, len) == 9 + LIMIT * (q + 1) == Bound(len);
  }

  // For every length there is a trace that reaches the bound.  In particular 19 events of one name can
  // pass within 2 ms, although the source's comment promises at most 10 in 10 seconds.
  lemma BoundAttained(name: string, len: nat)
    ensures exists trace, t :: ClockRuns(trace) && AdmittedIn(trace, name, t, len) == Bound(len)
    ensures Bound(1) == 19
  {
    if len % (WINDOW + 1) == 0 {
      AttainedOnTheBeat(name, len);
    } else {
      AttainedOffTheBeat(name, len);
    }
  }

  // ---------- no event is refused without cause ----------

  lemma {:induction false} WindowCounts(trace: seq<Event>, name: string)
    requires ClockRuns(trace)
    ensures var b := BucketAfter(trace, name);
      b.Some? ==> b.value.count <= SeenSince(trace, name, b.value.windowStart)
  {
    if trace != [] {
      var k := |trace| - 1;
      var e, before := trace[k], trace[..k];
      assert trace == before + [e];
      WindowCounts(before, name);
      WindowOpened(before, name);
      var b' := BucketAfter(trace, name);
      if b'.Some? {
        Append(before, e, name, b'.value.windowStart, 0);
      }
    }
  }

  lemma {:induction false} SeenSinceGrows(trace: seq<Event>, name: string, t: int, t': int)
    requires t <= t'
    ensures SeenSince(trace, name, t') <= SeenSince(trace, name, t)
  {
    if trace != [] {
      SeenSinceGrows(trace[..|trace| - 1], name, t, t');
    }
  }

  // A refused event is at least the eleventh of its name in the last 10 seconds.
  lemma RefusalHasCause(trace: seq<Event>, i: nat)
    requires ClockRuns(trace) && i < |trace| && !Admitted(trace, i)
    ensures SeenSince(trace[..i], trace[i].name, trace[i].time - 10000) >= 10
  {
    var e, before := trace[i], trace[..i];
    WindowCounts(before, e.name);
    SeenSinceGrows(before, e.name, e.time - WINDOW, BucketAfter(before, e.name).value.windowStart);
  }
}

/**
 The two SLO alert evaluators of backend/config/alertPolicies.js: nested loops over policies, SLOs and
 budgets that open and acknowledge events, and give up on a policy when sending an alert throws.
 Rates are exact reals.
 */
module AlertPolicies {
  import opened Wrappers

  datatype Snapshot = Snapshot(time: int, consumedPercent: real)
  datatype Event = Event(policyId: string, acknowledged: bool)
  datatype Budget = Budget(sloId: string, totalBudget: real, consumedPercent: real, history: seq<Snapshot>, events: seq<Event>)
  datatype Policy = Policy(id: string, sloIds: seq<string>, burnRate: real, windowMinutes: nat)
  datatype Thresholds = Thresholds(warning: real, critical: real, exhausted: real)
  type Config = map<string, Thresholds>

  const MONTH_MINUTES := 30 * 24 * 60

  // ---------- burn rates ----------

  function Recent(history: seq<Snapshot>, cutoff: int): seq<Snapshot> {
    if history == [] then []
    else (if history[0].time >= cutoff then [history[0]] else []) + Recent(history[1..], cutoff)
  }

  datatype Verdict = Skip | Firing | Quiet

  function Judge(b: Budget, p: Policy, config: Config, now: int): Verdict {
    if b.sloId !in config || b.totalBudget / MONTH_MINUTES as real <= 0.0 || |b.history| < 2 then Skip
    else
      var recent := Recent(b.history, now - p.windowMinutes * 60 * 1000);
      if |recent| < 2 then Skip
      else
        var delta := recent[|recent| - 1].consumedPercent - recent[0].consumedPercent;
        var expected := p.windowMinutes as real / MONTH_MINUTES as real * 100.0;
        var rate := if expected > 0.0 then delta / expected else 0.0;
        if rate >= p.burnRate then Firing else Quiet
  }

  // The first unacknowledged event of the policy.
  function FindOpen(events: seq<Event>, id: string): (r: Option<nat>)
    ensures r.Some? ==> r.value < |events| && events[r.value] == Event(id, false)
    ensures r.None? ==> Event(id, false) !in events
  {
    if events == [] then None
    else if events[0] == Event(id, false) then Some(0)
    else
      match FindOpen(events[1..], id)
      case Some(i) => Some(i + 1)
      case None => None
  }

  // One policy and one budget; None when triggerAlert throws.
  function EvaluateOne(b: Budget, p: Policy, verdict: Verdict, alertFails: bool): Option<Budget> {
    var open := FindOpen(b.events, p.id);
    if verdict == Firing && open.None? then
      if alertFails then None else Some(b.(events := b.events + [Event(p.id, false)]))
    else if verdict == Quiet && open.Some? then
      Some(b.(events := b.events[open.value := Event(p.id, true)]))
    else Some(b)
  }

  function FindBudget(budgets: seq<Budget>, sloId: string): (r: Option<nat>)
    ensures r.Some? ==> r.value < |budgets| && budgets[r.value].sloId == sloId
    ensures r.None? ==> forall i | 0 <= i < |budgets| :: budgets[i].sloId != sloId
  {
    if budgets == [] then None
    else if budgets[0].sloId == sloId then Some(0)
    else
      match FindBudget(budgets[1..], sloId)
      case Some(i) => Some(i + 1)
      case None => None
  }

  // Which alerts throw, by policy and SLO.
  type Failures = (string, string) -> bool

  function EvaluateAt(budgets: seq<Budget>, p: Policy, sloId: string, config: Config, now: int, fails: Failures): Option<seq<Budget>> {
    match FindBudget(budgets, sloId)
    case None => Some(budgets)
    case Some(i) =>
      match EvaluateOne(budgets[i], p, Judge(budgets[i], p, config, now), fails(p.id, sloId))
      case None => None
      case Some(b) => Some(budgets[i := b])
  }

  // The SLOs of a policy up to the first whose alert throws.
  function EvaluatePolicy(budgets: seq<Budget>, p: Policy, ids: seq<string>, config: Config, now: int, fails: Failures): seq<Budget>
    decreases |ids|
  {
    if ids == [] then budgets
    else
      match EvaluateAt(budgets, p, ids[0], config, now, fails)
      case None => budgets
      case Some(budgets') => EvaluatePolicy(budgets', p, ids[1..], config, now, fails)
  }

  function EvaluateAll(budgets: seq<Budget>, policies: seq<Policy>, config: Config, now: int, fails: Failures): seq<Budget>
    decreases |policies|
  {
    if policies == [] then budgets
    else EvaluateAll(EvaluatePolicy(budgets, policies[0], policies[0].sloIds, config, now, fails), policies[1..], config, now, fails)
  }

  // ---------- budget status ----------

  const EXHAUSTED := "budget-exhausted"
  const CRITICAL := "budget-critical"
  const WARNING := "budget-warning"

  function StatusPolicy(b: Budget, t: Thresholds): Option<string> {
    if b.consumedPercent >= t.exhausted then Some(EXHAUSTED)
    else if b.consumedPercent >= t.critical then Some(CRITICAL)
    else if b.consumedPercent >= t.warning then Some(WARNING)
    else None
  }

  function EvaluateStatus(b: Budget, config: Config, alertFails: bool): Budget {
    if b.sloId !in config then b
    else
      match StatusPolicy(b, config[b.sloId])
      case None => b
      case Some(id) =>
        if FindOpen(b.events, id).Some? || alertFails then b else b.(events := b.events + [Event(id, false)])
  }

  class BudgetStore {
    var budgets: seq<Budget>

    constructor (budgets: seq<Budget>)
      ensures this.budgets == budgets
    {
      this.budgets := budgets;
    }

    method EvaluateBurnRateAlerts(policies: seq<Policy>, config: Config, now: int, fails: Failures)
      modifies this
      ensures budgets == EvaluateAll(old(budgets), policies, config, now, fails)
    {
      var p := 0;
      while p < |policies|
        invariant p <= |policies|
        invariant EvaluateAll(budgets, policies[p..], config, now, fails) == EvaluateAll(old(budgets), policies, config, now, fails)
      {
        var policy := policies[p];
        ghost var before := budgets;
        assert policies[p..][1..] == policies[p + 1..];
        var n := 0;
        while n < |policy.sloIds|
          invariant n <= |policy.sloIds|
          invariant EvaluatePolicy(budgets, policy, policy.sloIds[n..], config, now, fails)
                 == EvaluatePolicy(before, policy, policy.sloIds, config, now, fails)
        {
          var sloId := policy.sloIds[n];
          assert policy.sloIds[n..][1..] == policy.sloIds[n + 1..];
          n := n + 1;
          var found := FindBudget(budgets, sloId);
          if found.None? {
            continue;
          }
          var budget := budgets[found.value];
          var verdict := Judge(budget, policy, config, now);
          var open := FindOpen(budget.events, policy.id);
          if verdict == Firing && open.None? {
            if fails(policy.id, sloId) {
              break;
            }
            budgets := budgets[found.value := budget.(events := budget.events + [Event(policy.id, false)])];
          } else if verdict == Quiet && open.Some? {
            budgets := budgets[found.value := budget.(events := budget.events[open.value := Event(policy.id, true)])];
          } else {
            assert budgets[found.value := budget] == budgets;
          }
        }
        p := p + 1;
      }
    }

    method EvaluateErrorBudgetStatusAlerts(config: Config, fails: Failures)
      modifies this
      ensures |budgets| == |old(budgets)|
      ensures forall i | 0 <= i < |budgets| ::
                budgets[i] == EvaluateStatus(old(budgets)[i], config, fails("status", old(budgets)[i].sloId))
    {
      for i := 0 to |budgets|
        invariant |budgets| == |old(budgets)|
        invariant forall j | i <= j < |budgets| :: budgets[j] == old(budgets)[j]
        invariant forall j | 0 <= j < i ::
                    budgets[j] == EvaluateStatus(old(budgets)[j], config, fails("status", old(budgets)[j].sloId))
      {
        var budget := budgets[i];
        if budget.sloId !in config {
          continue;
        }
        var thresholds := config[budget.sloId];
        var policyId: Option<string> := None;
        if budget.consumedPercent >= thresholds.exhausted {
          policyId := Some(EXHAUSTED);
        } else if budget.consumedPercent >= thresholds.critical {
          policyId := Some(CRITICAL);
        } else if budget.consumedPercent >= thresholds.warning {
          policyId := Some(WARNING);
        }
        if policyId.Some? && FindOpen(budget.events, policyId.value).None? && !fails("status", budget.sloId) {
          budgets := budgets[i := budget.(events := budget.events + [Event(policyId.value, false)])];
        }
      }
    }
  }

  // ---------- at most one open event ----------

  function OpenCount(events: seq<Event>, id: string): nat {
    if events == [] then 0 else OpenCount(events[..|events| - 1], id) + if events[|events| - 1] == Event(id, false) then 1 else 0
  }

  ghost predicate NoDuplicates(b: Budget) {
    forall id :: OpenCount(b.events, id) <= 1
  }

  predicate Open(b: Budget, id: string) { Event(id, false) in b.events }

  lemma OpenCountAppend(events: seq<Event>, e: Event, id: string)
    ensures OpenCount(events + [e], id) == OpenCount(events, id) + if e == Event(id, false) then 1 else 0
  {
    assert (events + [e])[..|events|] == events;
  }

  lemma {:induction false} OpenCountOpen(events: seq<Event>, id: string)
    ensures OpenCount(events, id) == 0 <==> Event(id, false) !in events
  {
    if events != [] {
      OpenCountOpen(events[..|events| - 1], id);
      assert events == events[..|events| - 1] + [events[|events| - 1]];
    }
  }

  lemma {:induction false} OpenCountClose(events: seq<Event>, i: nat, id: string)
    requires i < |events| && !events[i].acknowledged
    ensures OpenCount(events[i := events[i].(acknowledged := true)], id)
         == OpenCount(events, id) - if events[i].policyId == id then 1 else 0
  {
    var k := |events| - 1;
    var events' := events[i := events[i].(acknowledged := true)];
    if i == k {
      assert events'[..k] == events[..k];
    } else {
      assert events'[..k] == events[..k][i := events[i].(acknowledged := true)];
      OpenCountClose(events[..k], i, id);
    }
  }

  // One evaluation: the event of this policy is opened only if it is firing and none is open, closed only
  // if it is quiet, and afterwards it is open exactly if the policy fires; other policies' events stay.
  lemma EvaluateOneExact(b: Budget, p: Policy, verdict: Verdict, alertFails: bool)
    requires NoDuplicates(b) && EvaluateOne(b, p, verdict, alertFails).Some?
    ensures var b' := EvaluateOne(b, p, verdict, alertFails).value;
      && b' == b.(events := b'.events) && NoDuplicates(b')
      && (Open(b', p.id) <==> verdict == Firing || (verdict == Skip && Open(b, p.id)))
      && (forall id | id != p.id :: Open(b', id) <==> Open(b, id))
  {
    var b' := EvaluateOne(b, p, verdict, alertFails).value;
    var open := FindOpen(b.events, p.id);
    forall id
      ensures OpenCount(b'.events, id) <= 1
      ensures id != p.id ==> (Open(b', id) <==> Open(b, id))
      ensures id == p.id ==> (Open(b', id) <==> verdict == Firing || (verdict == Skip && Open(b, id)))
    {
      OpenCountOpen(b.events, id);
      OpenCountOpen(b'.events, id);
      if verdict == Firing && open.None? {
        OpenCountAppend(b.events, Event(p.id, false), id);
      } else if verdict == Quiet && open.Some? {
        OpenCountClose(b.events, open.value, id);
      }
    }
  }

  // The list of events itself: a new event is put behind the others, the open one is acknowledged in its
  // place, and there is no result exactly if a new event's alert throws.
  lemma EventsExact(b: Budget, p: Policy, verdict: Verdict, alertFails: bool)
    ensures var r, opens := EvaluateOne(b, p, verdict, alertFails), verdict == Firing && !Open(b, p.id);
      && (r == None <==> opens && alertFails)
      && (opens && !alertFails ==> r == Some(b.(events := b.events + [Event(p.id, false)])))
      && (verdict == Quiet && Open(b, p.id) ==>
            exists i :: 0 <= i < |b.events| && b.events[i] == Event(p.id, false)
                        && r == Some(b.(events := b.events[i := b.events[i].(acknowledged := true)])))
      && (!opens && !(verdict == Quiet && Open(b, p.id)) ==> r == Some(b))
  {
  }

  // One budget against its thresholds: only the highest one reached counts, and its event is put behind the
  // others unless it is open already or its alert throws.
  lemma StatusExactly(b: Budget, config: Config, alertFails: bool)
    ensures b.sloId !in config ==> EvaluateStatus(b, config, alertFails) == b
    ensures b.sloId in config ==>
      var used, t, r := b.consumedPercent, config[b.sloId], EvaluateStatus(b, config, alertFails);
      var first, second, third :=
        used >= t.exhausted, t.critical <= used < t.exhausted, t.warning <= used < t.critical && used < t.exhausted;
      && (r == b.(events := b.events + [Event("budget-exhausted", false)])
          <==> first && !alertFails && !Open(b, "budget-exhausted"))
      && (r == b.(events := b.events + [Event("budget-critical", false)])
          <==> second && !alertFails && !Open(b, "budget-critical"))
      && (r == b.(events := b.events + [Event("budget-warning", false)])
          <==> third && !alertFails && !Open(b, "budget-warning"))
      && (r == b
          <==> || alertFails || !(first || second || third) || (first && Open(b, "budget-exhausted"))
               || (second && Open(b, "budget-critical")) || (third && Open(b, "budget-warning")))
  {
    if b.sloId in config {
      ThreeApart(b);
    }
  }

  lemma ThreeApart(b: Budget)
    ensures var with := (id: string) => b.(events := b.events + [Event(id, false)]);
      && with("budget-exhausted") != with("budget-critical") && with("budget-critical") != with("budget-warning")
      && with("budget-exhausted") != with("budget-warning")
      && forall id: string :: with(id) != b && with(id).events[|b.events|] == Event(id, false)
  {
    var with := (id: string) => b.(events := b.events + [Event(id, false)]);
    assert |"budget-exhausted"| == 16 && |"budget-critical"| == 15 && |"budget-warning"| == 14;
    assert forall id: string :: with(id).events[|b.events|] == Event(id, false);
  }

  lemma StatusKeeps(b: Budget, config: Config, alertFails: bool)
    requires NoDuplicates(b)
    ensures var b' := EvaluateStatus(b, config, alertFails);
      && NoDuplicates(b')
      && (forall id | Open(b, id) :: Open(b', id))
      && (forall id | Open(b', id) && !Open(b, id) :: b.sloId in config && StatusPolicy(b, config[b.sloId]) == Some(id))
  {
    var b' := EvaluateStatus(b, config, alertFails);
    if b' != b {
      var e := b'.events[|b.events|];
      forall id
        ensures OpenCount(b'.events, id) <= 1
      {
        OpenCountOpen(b.events, id);
        OpenCountAppend(b.events, e, id);
      }
    }
  }

  // ---------- whole evaluations ----------

  ghost predicate AllSingle(budgets: seq<Budget>) {
    forall i | 0 <= i < |budgets| :: NoDuplicates(budgets[i])
  }

  // Nothing but events changes.
  ghost predicate OnlyEvents(budgets: seq<Budget>, budgets': seq<Budget>) {
    |budgets'| == |budgets| && forall i | 0 <= i < |budgets| :: budgets'[i] == budgets[i].(events := budgets'[i].events)
  }

  // Whether an event with this policy id is open stays as it was.
  ghost predicate SameOpen(budgets: seq<Budget>, budgets': seq<Budget>, id: string) {
    |budgets'| == |budgets| && forall i | 0 <= i < |budgets| :: Open(budgets'[i], id) <==> Open(budgets[i], id)
  }

  lemma SameOpenTwice(a: seq<Budget>, b: seq<Budget>, c: seq<Budget>, id: string)
    requires SameOpen(a, b, id) && SameOpen(b, c, id)
    ensures SameOpen(a, c, id)
  {
  }

  lemma OnlyEventsTwice(a: seq<Budget>, b: seq<Budget>, c: seq<Budget>)
    requires OnlyEvents(a, b) && OnlyEvents(b, c)
    ensures OnlyEvents(a, c)
  {
  }

  lemma {:induction false} FindBudgetSame(budgets: seq<Budget>, budgets': seq<Budget>, sloId: string)
    requires OnlyEvents(budgets, budgets')
    ensures FindBudget(budgets', sloId) == FindBudget(budgets, sloId)
  {
    if budgets != [] {
      assert OnlyEvents(budgets[1..], budgets'[1..]);
      FindBudgetSame(budgets[1..], budgets'[1..], sloId);
    }
  }

  lemma AtKeeps(budgets: seq<Budget>, p: Policy, sloId: string, config: Config, now: int, fails: Failures)
    requires AllSingle(budgets) && EvaluateAt(budgets, p, sloId, config, now, fails).Some?
    ensures var budgets' := EvaluateAt(budgets, p, sloId, config, now, fails).value;
      && AllSingle(budgets') && OnlyEvents(budgets, budgets')
      && (forall id | id != p.id :: SameOpen(budgets, budgets', id))
      && (forall i | 0 <= i < |budgets| && FindBudget(budgets, sloId) != Some(i) :: budgets'[i] == budgets[i])
      && (forall i | 0 <= i < |budgets| && FindBudget(budgets, sloId) == Some(i) ::
            Open(budgets'[i], p.id) <==> Shown(budgets[i], p, config, now))
  {
    var found := FindBudget(budgets, sloId);
    if found.Some? {
      EvaluateOneExact(budgets[found.value], p, Judge(budgets[found.value], p, config, now), fails(p.id, sloId));
    }
  }

  // Whether the policy's event should be open after an evaluation.
  predicate Shown(b: Budget, p: Policy, config: Config, now: int) {
    var v := Judge(b, p, config, now);
    v == Firing || (v == Skip && Open(b, p.id))
  }

  lemma {:induction false} PolicyKeeps(budgets: seq<Budget>, p: Policy, ids: seq<string>, config: Config, now: int, fails: Failures, id: string)
    requires AllSingle(budgets)
    ensures var budgets' := EvaluatePolicy(budgets, p, ids, config, now, fails);
      && AllSingle(budgets') && OnlyEvents(budgets, budgets')
      && (id != p.id ==> SameOpen(budgets, budgets', id))
    decreases |ids|
  {
    if ids != [] {
      var r := EvaluateAt(budgets, p, ids[0], config, now, fails);
      if r.Some? {
        AtKeeps(budgets, p, ids[0], config, now, fails);
        hide EvaluateAt, AllSingle, OnlyEvents, SameOpen;
        PolicyKeeps(r.value, p, ids[1..], config, now, fails, id);
        var last := EvaluatePolicy(budgets, p, ids, config, now, fails);
        OnlyEventsTwice(budgets, r.value, last);
        if id != p.id {
          SameOpenTwice(budgets, r.value, last, id);
        }
      }
    }
  }

  lemma {:induction false} AllKeep(budgets: seq<Budget>, policies: seq<Policy>, config: Config, now: int, fails: Failures, id: string)
    requires AllSingle(budgets)
    ensures var budgets' := EvaluateAll(budgets, policies, config, now, fails);
      && AllSingle(budgets') && OnlyEvents(budgets, budgets')
      && ((forall k | 0 <= k < |policies| :: policies[k].id != id) ==> SameOpen(budgets, budgets', id))
    decreases |policies|
  {
    if policies != [] {
      var p := policies[0];
      var mid, last := EvaluatePolicy(budgets, p, p.sloIds, config, now, fails), EvaluateAll(budgets, policies, config, now, fails);
      PolicyKeeps(budgets, p, p.sloIds, config, now, fails, id);
      hide EvaluatePolicy, AllSingle, OnlyEvents, SameOpen;
      AllKeep(mid, policies[1..], config, now, fails, id);
      OnlyEventsTwice(budgets, mid, last);
      if forall k | 0 <= k < |policies| :: policies[k].id != id {
        SameOpenTwice(budgets, mid, last, id);
      }
    }
  }

  lemma JudgeSame(b: Budget, b': Budget, p: Policy, config: Config, now: int)
    requires b' == b.(events := b'.events)
    ensures Judge(b', p, config, now) == Judge(b, p, config, now)
  {
  }

  lemma ShownSame(budgets: seq<Budget>, budgets': seq<Budget>, i: nat, p: Policy, config: Config, now: int)
    requires OnlyEvents(budgets, budgets') && SameOpen(budgets, budgets', p.id) && i < |budgets|
    ensures Shown(budgets'[i], p, config, now) == Shown(budgets[i], p, config, now)
    ensures budgets'[i].sloId == budgets[i].sloId
  {
    hide Judge;
    JudgeSame(budgets[i], budgets'[i], p, config, now);
  }

  // A policy fires exactly if, within its window, at least burnRate times as much of the budget was
  // consumed as an even consumption over 30 days would have; no window fires only at a rate of 0 or less.
  lemma FiringMeans(b: Budget, p: Policy, config: Config, now: int)
    ensures var recent := Recent(b.history, now - p.windowMinutes * 60000);
      Judge(b, p, config, now) == Firing
      <==> && b.sloId in config && b.totalBudget > 0.0 && |recent| >= 2
           && (if p.windowMinutes == 0 then p.burnRate <= 0.0
               else (recent[|recent| - 1].consumedPercent - recent[0].consumedPercent) * 43200.0
                    >= p.burnRate * (p.windowMinutes as real * 100.0))
  {
  }

  // It is judged, firing or quiet, exactly if the SLO is configured, there is a budget, and there are two
  // snapshots in the window.
  lemma JudgedMeans(b: Budget, p: Policy, config: Config, now: int)
    ensures var recent := Recent(b.history, now - p.windowMinutes * 60000);
      Judge(b, p, config, now) == Skip <==> !(b.sloId in config && b.totalBudget > 0.0 && |recent| >= 2)
  {
    RecentIs(b.history, now - p.windowMinutes * 60000);
    hide Recent;
    BudgetRate(b.totalBudget);
  }

  lemma BudgetRate(total: real)
    ensures total / 43200.0 <= 0.0 <==> total <= 0.0
  {
  }

  // The snapshots taken since the cutoff, in their order.
  lemma {:induction false} RecentIs(history: seq<Snapshot>, cutoff: int)
    ensures |Recent(history, cutoff)| <= |history|
    ensures forall x :: x in Recent(history, cutoff) <==> x in history && x.time >= cutoff
  {
    if history != [] {
      RecentIs(history[1..], cutoff);
    }
  }

  lemma {:induction false} RecentAppend(a: seq<Snapshot>, b: seq<Snapshot>, cutoff: int)
    ensures Recent(a + b, cutoff) == Recent(a, cutoff) + Recent(b, cutoff)
  {
    if a == [] {
      assert a + b == b;
    } else {
      RecentAppend(a[1..], b, cutoff);
      assert (a + b)[1..] == a[1..] + b;
    }
  }

  lemma RecentOne(x: Snapshot, cutoff: int)
    ensures Recent([x], cutoff) == if x.time >= cutoff then [x] else []
  {
    assert [x][1..] == [];
  }

  // Evaluating the policy for this SLO means sending an alert, which throws.
  predicate Stops(budgets: seq<Budget>, p: Policy, sloId: string, config: Config, now: int, fails: Failures) {
    match FindBudget(budgets, sloId)
    case None => false
    case Some(i) => Judge(budgets[i], p, config, now) == Firing && !Open(budgets[i], p.id) && fails(p.id, sloId)
  }

  // How many of the SLOs are evaluated before the policy is given up.
  function Reached(budgets: seq<Budget>, p: Policy, ids: seq<string>, config: Config, now: int, fails: Failures): (n: nat)
    ensures n <= |ids|
  {
    if ids == [] || Stops(budgets, p, ids[0], config, now, fails) then 0
    else 1 + Reached(budgets, p, ids[1..], config, now, fails)
  }

  // The budget is the one that is found for its SLO, and the policy gets to it.
  predicate Evaluated(budgets: seq<Budget>, p: Policy, ids: seq<string>, config: Config, now: int, fails: Failures, i: nat)
    requires i < |budgets|
  {
    FindBudget(budgets, budgets[i].sloId) == Some(i)
    && budgets[i].sloId in ids[..Reached(budgets, p, ids, config, now, fails)]
  }

  lemma AtStops(budgets: seq<Budget>, p: Policy, sloId: string, config: Config, now: int, fails: Failures)
    ensures EvaluateAt(budgets, p, sloId, config, now, fails) == None <==> Stops(budgets, p, sloId, config, now, fails)
  {
    hide Judge;
  }

  lemma {:induction false} ReachedSame(budgets: seq<Budget>, budgets': seq<Budget>, p: Policy, ids: seq<string>, config: Config, now: int,
                                       fails: Failures)
    requires forall sloId :: Stops(budgets', p, sloId, config, now, fails) == Stops(budgets, p, sloId, config, now, fails)
    ensures Reached(budgets', p, ids, config, now, fails) == Reached(budgets, p, ids, config, now, fails)
  {
    if ids != [] {
      hide Stops;
      ReachedSame(budgets, budgets', p, ids[1..], config, now, fails);
    }
  }

  // One evaluation makes no other one throw, nor keeps it from throwing.
  lemma StopsAfter(budgets: seq<Budget>, p: Policy, at: string, config: Config, now: int, fails: Failures, sloId: string)
    requires AllSingle(budgets) && EvaluateAt(budgets, p, at, config, now, fails).Some?
    ensures Stops(EvaluateAt(budgets, p, at, config, now, fails).value, p, sloId, config, now, fails)
         == Stops(budgets, p, sloId, config, now, fails)
  {
    var r := EvaluateAt(budgets, p, at, config, now, fails).value;
    AtStops(budgets, p, at, config, now, fails);
    AtKeeps(budgets, p, at, config, now, fails);
    FindBudgetSame(budgets, r, sloId);
    hide EvaluateAt, AllSingle, Judge, Open;
    var found := FindBudget(budgets, sloId);
    if found.Some? {
      JudgeSame(budgets[found.value], r[found.value], p, config, now);
    }
  }

  // After the first SLO, the others are gone through as before.
  lemma EvaluatedNext(budgets: seq<Budget>, p: Policy, ids: seq<string>, config: Config, now: int, fails: Failures, i: nat)
    requires AllSingle(budgets) && i < |budgets| && ids != [] && EvaluateAt(budgets, p, ids[0], config, now, fails).Some?
    ensures var r := EvaluateAt(budgets, p, ids[0], config, now, fails).value;
      && |r| == |budgets|
      && (Evaluated(budgets, p, ids, config, now, fails, i)
          <==> FindBudget(budgets, budgets[i].sloId) == Some(i)
               && (budgets[i].sloId == ids[0] || Evaluated(r, p, ids[1..], config, now, fails, i)))
      && (Evaluated(r, p, ids[1..], config, now, fails, i) ==> FindBudget(budgets, budgets[i].sloId) == Some(i))
  {
    var r := EvaluateAt(budgets, p, ids[0], config, now, fails).value;
    AtStops(budgets, p, ids[0], config, now, fails);
    AtKeeps(budgets, p, ids[0], config, now, fails);
    FindBudgetSame(budgets, r, budgets[i].sloId);
    forall sloId
      ensures Stops(r, p, sloId, config, now, fails) == Stops(budgets, p, sloId, config, now, fails)
    {
      StopsAfter(budgets, p, ids[0], config, now, fails, sloId);
    }
    ReachedSame(budgets, r, p, ids[1..], config, now, fails);
    hide EvaluateAt, AllSingle, Judge, Open, Stops, FindBudget;
    var n := Reached(budgets, p, ids[1..], config, now, fails);
    assert ids[..1 + n] == [ids[0]] + ids[1..][..n];
  }

  lemma {:induction false} PolicyExact(budgets: seq<Budget>, p: Policy, ids: seq<string>, config: Config, now: int, fails: Failures, i: nat)
    requires AllSingle(budgets) && i < |budgets|
    ensures var budgets' := EvaluatePolicy(budgets, p, ids, config, now, fails);
      && |budgets'| == |budgets|
      && (Open(budgets'[i], p.id)
          <==> if Evaluated(budgets, p, ids, config, now, fails, i) then Shown(budgets[i], p, config, now) else Open(budgets[i], p.id))
    decreases |ids|
  {
    hide EvaluateAt, AllSingle, Judge, Open, Stops, FindBudget;
    if ids != [] {
      AtStops(budgets, p, ids[0], config, now, fails);
      if !Stops(budgets, p, ids[0], config, now, fails) {
        var r := EvaluateAt(budgets, p, ids[0], config, now, fails).value;
        AtKeeps(budgets, p, ids[0], config, now, fails);
        EvaluatedNext(budgets, p, ids, config, now, fails, i);
        JudgeSame(budgets[i], r[i], p, config, now);
        hide Evaluated;
        PolicyExact(r, p, ids[1..], config, now, fails, i);
      }
    }
  }

  predicate DistinctIds(policies: seq<Policy>) {
    forall j, k | 0 <= j < k < |policies| :: policies[j].id != policies[k].id
  }

  lemma StopsSame(budgets: seq<Budget>, budgets': seq<Budget>, p: Policy, config: Config, now: int, fails: Failures, sloId: string)
    requires OnlyEvents(budgets, budgets') && SameOpen(budgets, budgets', p.id)
    ensures Stops(budgets', p, sloId, config, now, fails) == Stops(budgets, p, sloId, config, now, fails)
  {
    hide Judge, Open;
    FindBudgetSame(budgets, budgets', sloId);
    var found := FindBudget(budgets, sloId);
    if found.Some? {
      JudgeSame(budgets[found.value], budgets'[found.value], p, config, now);
    }
  }

  // Other policies do not change what this one is evaluated on.
  lemma EvaluatedSame(budgets: seq<Budget>, budgets': seq<Budget>, p: Policy, config: Config, now: int, fails: Failures, i: nat)
    requires OnlyEvents(budgets, budgets') && SameOpen(budgets, budgets', p.id) && i < |budgets|
    ensures Evaluated(budgets', p, p.sloIds, config, now, fails, i) == Evaluated(budgets, p, p.sloIds, config, now, fails, i)
  {
    forall sloId
      ensures Stops(budgets', p, sloId, config, now, fails) == Stops(budgets, p, sloId, config, now, fails)
    {
      StopsSame(budgets, budgets', p, config, now, fails, sloId);
    }
    ReachedSame(budgets, budgets', p, p.sloIds, config, now, fails);
    FindBudgetSame(budgets, budgets', budgets[i].sloId);
  }

  // After a whole evaluation, of any policies and with any alerts throwing: where a policy was evaluated, its
  // event is open exactly if it fires there, or could not be judged and was open before; elsewhere, and
  // behind the first alert that throws, it is open exactly if it was; no budget has two open events of one
  // policy.
  lemma {:induction false} OpenExactlyWhenFiring(budgets: seq<Budget>, policies: seq<Policy>, config: Config, now: int,
                                                 fails: Failures, k: nat, i: nat)
    requires AllSingle(budgets) && DistinctIds(policies) && k < |policies| && i < |budgets|
    ensures var budgets', p := EvaluateAll(budgets, policies, config, now, fails), policies[k];
      && AllSingle(budgets') && |budgets'| == |budgets|
      && (Open(budgets'[i], p.id)
          <==> if Evaluated(budgets, p, p.sloIds, config, now, fails, i) then Shown(budgets[i], p, config, now)
               else Open(budgets[i], p.id))
    decreases |policies|
  {
    var p, q := policies[0], policies[k];
    hide EvaluatePolicy, AllSingle, Judge, Open, FindBudget, Shown, Evaluated;
    var mid := EvaluatePolicy(budgets, p, p.sloIds, config, now, fails);
    AllKeep(budgets, policies, config, now, fails, q.id);
    PolicyKeeps(budgets, p, p.sloIds, config, now, fails, q.id);
    if k == 0 {
      PolicyExact(budgets, p, p.sloIds, config, now, fails, i);
      AllKeep(mid, policies[1..], config, now, fails, q.id);
    } else {
      EvaluatedSame(budgets, mid, q, config, now, fails, i);
      ShownSame(budgets, mid, i, q, config, now);
      OpenExactlyWhenFiring(mid, policies[1..], config, now, fails, k - 1, i);
    }
  }

  // ---------- runs of both evaluators ----------

  // Between evaluations the environment records history and acknowledges events.
  datatype Action =
    | Burn(policies: seq<Policy>, config: Config, now: int, fails: Failures)
    | Status(config: Config, fails: Failures)
    | Record(i: nat, consumedPercent: real, history: seq<Snapshot>)
    | Acknowledge(i: nat, event: nat)

  function Step(budgets: seq<Budget>, a: Action): seq<Budget> {
    match a
    case Burn(policies, config, now, fails) => EvaluateAll(budgets, policies, config, now, fails)
    case Status(config, fails) =>
      seq(|budgets|, i requires 0 <= i < |budgets| => EvaluateStatus(budgets[i], config, fails("status", budgets[i].sloId)))
    case Record(i, percent, history) =>
      if i < |budgets| then budgets[i := budgets[i].(consumedPercent := percent, history := history)] else budgets
    case Acknowledge(i, e) =>
      if i < |budgets| && e < |budgets[i].events|
      then budgets[i := budgets[i].(events := budgets[i].events[e := budgets[i].events[e].(acknowledged := true)])]
      else budgets
  }

  function Run(budgets: seq<Budget>, actions: seq<Action>): seq<Budget> {
    if actions == [] then budgets else Step(Run(budgets, actions[..|actions| - 1]), actions[|actions| - 1])
  }

  lemma StepSingle(budgets: seq<Budget>, a: Action)
    requires AllSingle(budgets)
    ensures AllSingle(Step(budgets, a))
  {
    match a
    case Burn(policies, config, now, fails) => AllKeep(budgets, policies, config, now, fails, "");
    case Status(config, fails) =>
      forall i | 0 <= i < |budgets|
        ensures NoDuplicates(EvaluateStatus(budgets[i], config, fails("status", budgets[i].sloId)))
      {
        StatusKeeps(budgets[i], config, fails("status", budgets[i].sloId));
      }
    case Record(_, _, _) =>
    case Acknowledge(i, e) =>
      if i < |budgets| && e < |budgets[i].events| {
        forall id
          ensures OpenCount(Step(budgets, a)[i].events, id) <= 1
        {
          if budgets[i].events[e].acknowledged {
            assert Step(budgets, a)[i].events == budgets[i].events;
          } else {
            OpenCountClose(budgets[i].events, e, id);
          }
        }
      }
  }

  // However the evaluators are interleaved with recording and acknowledging, and whichever alerts throw, no
  // budget ever has two unacknowledged events of one policy.
  lemma {:induction false} RunsStaySingle(budgets: seq<Budget>, actions: seq<Action>)
    requires AllSingle(budgets)
    ensures AllSingle(Run(budgets, actions))
  {
    if actions != [] {
      RunsStaySingle(budgets, actions[..|actions| - 1]);
      StepSingle(Run(budgets, actions[..|actions| - 1]), actions[|actions| - 1]);
    }
  }
}

/**
 Granting and revoking dealer subscriptions: the two database functions whose SQL is embedded in
 harden_commercial.py.  Each call is one transaction; a raised exception leaves everything as it was.
 User roles do not change.
 */
module DealerSubscriptions {
  import opened Wrappers

  type Uuid = string
  datatype Plan = Plan(id: string, listingMax: int)
  datatype SubStatus = Active | Cancelled
  datatype Sub = Sub(dealer: Uuid, planId: string, listingMax: int, expiresAt: int, status: SubStatus)

  // The package columns of a user; package is NULL and status 'none' without a subscription.
  datatype User = User(isDealer: bool, package: Option<string>, listingMax: int, expiresAt: Option<int>,
                       subscribed: bool, autoRenew: bool, locked: bool)

  datatype State = State(users: map<Uuid, User>, subs: seq<Sub>)

  // NULL arguments are None.
  datatype Action =
    | Grant(dealer: Option<Uuid>, planId: Option<string>, days: int, now: int, plans: seq<Plan>)
    | Revoke(dealer: Option<Uuid>)

  datatype Reply = Granted(sub: nat) | Revoked(sub: nat) | Raised

  const DAY := 86400000

  function FindPlan(plans: seq<Plan>, id: string): (r: Option<Plan>)
    ensures r.Some? ==> r.value in plans && r.value.id == id
    ensures r.None? ==> forall plan | plan in plans :: plan.id != id
  {
    if plans == [] then None else if plans[0].id == id then Some(plans[0]) else FindPlan(plans[1..], id)
  }

  // UPDATE dealer_subscriptions SET status = 'cancelled' WHERE dealer = d AND status = 'active'
  function Cancel(subs: seq<Sub>, d: Uuid): (r: seq<Sub>)
    ensures |r| == |subs|
    ensures forall i | 0 <= i < |subs| ::
              r[i] == if subs[i].dealer == d && subs[i].status == Active then subs[i].(status := Cancelled) else subs[i]
  {
    seq(|subs|, i requires 0 <= i < |subs| =>
      if subs[i].dealer == d && subs[i].status == Active then subs[i].(status := Cancelled) else subs[i])
  }

  function ActiveSub(subs: seq<Sub>, d: Uuid): (r: Option<nat>)
    ensures r.Some? ==> r.value < |subs| && subs[r.value].dealer == d && subs[r.value].status == Active
    ensures r.None? ==> forall i | 0 <= i < |subs| :: !(subs[i].dealer == d && subs[i].status == Active)
  {
    if subs == [] then None
    else
      var k := |subs| - 1;
      if subs[k].dealer == d && subs[k].status == Active then Some(k) else ActiveSub(subs[..k], d)
  }

  // What the calls do to the whole database, for every argument.
  function Step(s: State, a: Action): (State, Reply) {
    match a
    case Grant(dealer, planId, days, now, plans) =>
      if dealer.None? || planId.None? || days < 1 || days > 3660 then (s, Raised)
      else if !(dealer.value in s.users && s.users[dealer.value].isDealer) then (s, Raised)
      else if FindPlan(plans, planId.value).None? then (s, Raised)
      else
        var d, plan, expires := dealer.value, FindPlan(plans, planId.value).value, now + days * DAY;
        var u := s.users[d].(package := Some(plan.id), listingMax := plan.listingMax, expiresAt := Some(expires),
                             subscribed := true, autoRenew := false, locked := false);
        (State(s.users[d := u], Cancel(s.subs, d) + [Sub(d, plan.id, plan.listingMax, expires, Active)]), Granted(|s.subs|))
    case Revoke(dealer) =>
      if dealer.None? || ActiveSub(s.subs, dealer.value).None? then (s, Raised)
      else
        var d := dealer.value;
        var users := if d in s.users && s.users[d].isDealer
          then s.users[d := s.users[d].(package := None, listingMax := 0, expiresAt := None, subscribed := false, autoRenew := false)]
          else s.users;
        (State(users, Cancel(s.subs, d)), Revoked(ActiveSub(s.subs, d).value))
  }

  class Database {
    var users: map<Uuid, User>
    var subs: seq<Sub>

    function Abs(): State
      reads this
    {
      State(users, subs)
    }

    constructor (users: map<Uuid, User>)
      ensures Abs() == State(users, [])
    {
      this.users, subs := users, [];
    }

    method GrantSubscription(dealer: Option<Uuid>, planId: Option<string>, days: int, now: int, plans: seq<Plan>) returns (r: Reply)
      modifies this
      ensures (Abs(), r) == Step(old(Abs()), Grant(dealer, planId, days, now, plans))
    {
      if dealer.None? || planId.None? {
        return Raised;
      }
      if days < 1 || days > 3660 {
        return Raised;
      }
      var d := dealer.value;
      if !(d in users && users[d].isDealer) {
        return Raised;
      }
      var plan := FindPlan(plans, planId.value);
      if plan.None? {
        return Raised;
      }
      var expires := now + days * DAY;
      subs := Cancel(subs, d);
      subs := subs + [Sub(d, planId.value, plan.value.listingMax, expires, Active)];
      users := users[d := users[d].(package := planId, listingMax := plan.value.listingMax, expiresAt := Some(expires),
                                    subscribed := true, autoRenew := false, locked := false)];
      r := Granted(|subs| - 1);
    }

    method RevokeSubscription(dealer: Option<Uuid>) returns (r: Reply)
      modifies this
      ensures (Abs(), r) == Step(old(Abs()), Revoke(dealer))
    {
      if dealer.None? {
        return Raised;
      }
      var d := dealer.value;
      var active := ActiveSub(subs, d);
      if active.None? {
        return Raised;
      }
      subs := Cancel(subs, d);
      if d in users && users[d].isDealer {
        users := users[d := users[d].(package := None, listingMax := 0, expiresAt := None, subscribed := false, autoRenew := false)];
      }
      r := Revoked(active.value);
    }
  }

  // ---------- every run ----------

  predicate OneActive(subs: seq<Sub>) {
    forall i, j | 0 <= i < j < |subs| && subs[i].dealer == subs[j].dealer :: subs[i].status == Cancelled || subs[j].status == Cancelled
  }

  // The user's columns say what the active subscription says, or nothing.
  predicate Mirrors(u: User, subs: seq<Sub>, d: Uuid) {
    match ActiveSub(subs, d)
    case None => u.package.None? && u.listingMax == 0 && u.expiresAt.None? && !u.subscribed
    case Some(i) =>
      && u.package == Some(subs[i].planId) && u.listingMax == subs[i].listingMax
      && u.expiresAt == Some(subs[i].expiresAt) && u.subscribed
  }

  predicate Inv(s: State) {
    && OneActive(s.subs)
    && (forall i | 0 <= i < |s.subs| :: s.subs[i].dealer in s.users && s.users[s.subs[i].dealer].isDealer)
    && (forall d | d in s.users && s.users[d].isDealer :: Mirrors(s.users[d], s.subs, d))
  }

  // Roles and the other columns of other users stay, subscriptions are only added and cancelled.
  predicate Later(s: State, s': State) {
    && s.users.Keys == s'.users.Keys
    && (forall d | d in s.users :: s'.users[d].isDealer == s.users[d].isDealer)
    && |s.subs| <= |s'.subs|
    && (forall i | 0 <= i < |s.subs| ::
          s'.subs[i].(status := Active) == s.subs[i].(status := Active)
          && (s.subs[i].status == Cancelled ==> s'.subs[i].status == Cancelled))
  }

  // The active subscription is the one that is there.
  lemma ActiveIs(subs: seq<Sub>, d: Uuid, i: nat)
    requires OneActive(subs) && i < |subs| && subs[i].dealer == d && subs[i].status == Active
    ensures ActiveSub(subs, d) == Some(i)
  {
  }

  lemma OthersUntouched(subs: seq<Sub>, subs': seq<Sub>, d: Uuid)
    requires OneActive(subs) && OneActive(subs') && |subs| <= |subs'|
    requires forall i | 0 <= i < |subs| && subs[i].dealer == d :: subs'[i] == subs[i]
    requires forall i | |subs| <= i < |subs'| :: subs'[i].dealer != d
    requires forall i | 0 <= i < |subs| && subs[i].dealer != d :: subs'[i].dealer != d
    ensures ActiveSub(subs', d) == ActiveSub(subs, d)
  {
    if ActiveSub(subs, d).Some? {
      ActiveIs(subs', d, ActiveSub(subs, d).value);
    }
  }

  lemma StepKeeps(s: State, a: Action)
    requires Inv(s)
    ensures Inv(Step(s, a).0) && Later(s, Step(s, a).0)
  {
    hide ActiveSub, FindPlan, Mirrors;
    var s' := Step(s, a).0;
    if s' != s {
      var d := a.dealer.value;
      assert OneActive(s'.subs);
      forall e | e in s.users && s.users[e].isDealer
        ensures Mirrors(s'.users[e], s'.subs, e)
      {
        if e != d {
          OthersUntouched(s.subs, s'.subs, e);
          SameMirror(s.users[e], s.subs, s'.subs, e);
        } else if a.Grant? {
          ActiveIs(s'.subs, d, |s.subs|);
          assert Mirrors(s'.users[d], s'.subs, d) by { ShowsGrant(s'.users[d], s'.subs, d, |s.subs|); }
        } else {
          NothingLeft(s'.subs, d);
          assert Mirrors(s'.users[d], s'.subs, d) by { ShowsNothing(s'.users[d], s'.subs, d); }
        }
      }
    }
  }

  lemma SameMirror(u: User, subs: seq<Sub>, subs': seq<Sub>, d: Uuid)
    requires Mirrors(u, subs, d) && ActiveSub(subs', d) == ActiveSub(subs, d)
    requires forall i | 0 <= i < |subs| && subs[i].dealer == d :: i < |subs'| && subs'[i] == subs[i]
    ensures Mirrors(u, subs', d)
  {
  }

  lemma NothingLeft(subs: seq<Sub>, d: Uuid)
    requires forall i | 0 <= i < |subs| && subs[i].dealer == d :: subs[i].status == Cancelled
    ensures ActiveSub(subs, d) == None
  {
  }

  lemma ShowsGrant(u: User, subs: seq<Sub>, d: Uuid, i: nat)
    requires i < |subs| && ActiveSub(subs, d) == Some(i)
    requires u.package == Some(subs[i].planId) && u.listingMax == subs[i].listingMax && u.expiresAt == Some(subs[i].expiresAt) && u.subscribed
    ensures Mirrors(u, subs, d)
  {
  }

  lemma ShowsNothing(u: User, subs: seq<Sub>, d: Uuid)
    requires ActiveSub(subs, d) == None && u.package.None? && u.listingMax == 0 && u.expiresAt.None? && !u.subscribed
    ensures Mirrors(u, subs, d)
  {
  }

  function Run(s: State, actions: seq<Action>): State {
    if actions == [] then s else Step(Run(s, actions[..|actions| - 1]), actions[|actions| - 1]).0
  }

  predicate Initial(s: State) {
    s.subs == [] && forall d | d in s.users && s.users[d].isDealer ::
      s.users[d].package.None? && s.users[d].listingMax == 0 && s.users[d].expiresAt.None? && !s.users[d].subscribed
  }

  lemma {:induction false} RunKeeps(s: State, actions: seq<Action>)
    requires Inv(s)
    ensures Inv(Run(s, actions)) && Later(s, Run(s, actions))
  {
    if actions != [] {
      var before := Run(s, actions[..|actions| - 1]);
      RunKeeps(s, actions[..|actions| - 1]);
      StepKeeps(before, actions[|actions| - 1]);
      hide Inv, Step;
      LaterTwice(s, before, Run(s, actions));
    }
  }

  lemma LaterTwice(s: State, s': State, s'': State)
    requires Later(s, s') && Later(s', s'')
    ensures Later(s, s'')
  {
    forall i | 0 <= i < |s.subs|
      ensures s''.subs[i].(status := Active) == s.subs[i].(status := Active)
    {
      assert s'.subs[i].(status := Active) == s.subs[i].(status := Active);
    }
  }

  // In every run: at most one active subscription per dealer, mirrored by the dealer's own columns, and a
  // cancelled subscription stays cancelled whatever follows.
  lemma SubscriptionsStaySound(s: State, before: seq<Action>, after: seq<Action>)
    requires Initial(s)
    ensures var s1 := Run(s, before);
      && OneActive(s1.subs)
      && (forall d | d in s1.users && s1.users[d].isDealer :: Mirrors(s1.users[d], s1.subs, d))
      && var s2 := Run(s1, after);
         |s1.subs| <= |s2.subs| && forall i | 0 <= i < |s1.subs| && s1.subs[i].status == Cancelled :: s2.subs[i].status == Cancelled
  {
    assert Inv(s);
    RunKeeps(s, before);
    RunKeeps(Run(s, before), after);
  }

  // A call that raises changes nothing, and a grant does not raise because of an earlier subscription:
  // it replaces it.
  lemma GrantReplaces(s: State, a: Action)
    requires Inv(s)
    ensures Step(s, a).1 == Raised ==> Step(s, a).0 == s
    ensures a.Grant? && Step(s, a).1.Granted? ==>
      var s' := Step(s, a).0;
      && ActiveSub(s'.subs, a.dealer.value) == Some(|s.subs|)
      && (ActiveSub(s.subs, a.dealer.value).Some? ==> s'.subs[ActiveSub(s.subs, a.dealer.value).value].status == Cancelled)
      && Step(s', Revoke(a.dealer)).1 == Revoked(|s.subs|)
  {
    if a.Grant? && Step(s, a).1.Granted? {
      StepKeeps(s, a);
      ActiveIs(Step(s, a).0.subs, a.dealer.value, |s.subs|);
    }
  }

  // ---------- what each call does ----------

  ghost predicate MayGrant(s: State, a: Action)
    requires a.Grant?
  {
    && a.dealer.Some? && a.planId.Some? && 1 <= a.days <= 3660
    && a.dealer.value in s.users && s.users[a.dealer.value].isDealer
    && exists plan :: plan in a.plans && plan.id == a.planId.value
  }

  // Nothing of other dealers changes.
  predicate OthersSame(s: State, s': State, d: Uuid) {
    && |s.subs| <= |s'.subs| && s'.users.Keys == s.users.Keys
    && (forall i | 0 <= i < |s.subs| && s.subs[i].dealer != d :: s'.subs[i] == s.subs[i])
    && (forall i | |s.subs| <= i < |s'.subs| :: s'.subs[i].dealer == d)
    && (forall e | e in s.users && e != d :: s'.users[e] == s.users[e])
  }

  // A dealer gets a known plan for 1 to 3660 days of 24 hours: a new active subscription, all earlier ones
  // cancelled, and columns that say so, with automatic renewal and the lock off.
  lemma GrantsExactly(s: State, a: Action)
    requires a.Grant?
    ensures var (s', r) := Step(s, a);
      && (if MayGrant(s, a) then r == Granted(|s.subs|) else r == Raised && s' == s)
      && (MayGrant(s, a) ==>
            var d := a.dealer.value;
            && OthersSame(s, s', d) && |s'.subs| == |s.subs| + 1
            && (forall i | 0 <= i < |s.subs| && s.subs[i].dealer == d :: s'.subs[i] == s.subs[i].(status := Cancelled))
            && exists plan :: plan in a.plans && plan.id == a.planId.value
                 && s'.subs[|s.subs|] == Sub(d, plan.id, plan.listingMax, a.now + a.days * 86400000, Active)
                 && s'.users[d] == User(true, Some(plan.id), plan.listingMax, Some(a.now + a.days * 86400000), true, false, false))
  {
  }

  // Revoking needs an active subscription; it is cancelled, and a dealer's columns are cleared.
  lemma RevokesExactly(s: State, a: Action)
    requires Inv(s) && a.Revoke?
    ensures var (s', r) := Step(s, a);
      && (r == Raised
          <==> a.dealer.None? || forall i | 0 <= i < |s.subs| :: s.subs[i].dealer == a.dealer.value ==> s.subs[i].status == Cancelled)
      && (r == Raised ==> s' == s)
      && (r != Raised ==>
            var d := a.dealer.value;
            && r.Revoked? && r.sub < |s.subs| && s.subs[r.sub].dealer == d && s.subs[r.sub].status == Active
            && OthersSame(s, s', d) && s'.subs == s.subs[r.sub := s.subs[r.sub].(status := Cancelled)]
            && d in s.users && s'.users[d] == User(true, None, 0, None, false, false, s.users[d].locked))
  {
    hide Mirrors;
  }
}

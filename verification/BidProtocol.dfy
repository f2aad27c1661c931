/**
 Placing bids: any number of placeBid requests of backend/controllers/bidController.js interleaved at
 their awaits, with the leased lock of backend/middleware/distributedLock.js, the highest-bid query of
 backend/models/Bid.js, the database functions kayad_place_bid_atomic and
 kayad_confirm_bid_payment_atomic, and an environment that moves the clock, settles payments and
 edits cars at will.
 */
module BidProtocol {
  import opened Wrappers

  type Rid = nat
  type CarId = string
  type User = string

  const TTL := 15000

  datatype Status = Pending | Paid | Failed

  // base and settled record what the inserting request knew: the current bid it read, and whether
  // that was at least as high as every bid then on the car.
  datatype Bid = Bid(rid: Rid, car: CarId, user: User, amount: int, status: Status, base: int, settled: bool)

  datatype CarRow = CarRow(dealer: User, highestBidder: Option<User>, live: bool, auctionEnd: Option<int>,
                           currentBid: int, price: int)

  datatype Lease = Lease(holder: Rid, expiresAt: int)

  // A request between its awaits.  `at` is the time its lock was granted.
  datatype Phase =
    | Received
    | Locked(at: int)
    | CarOk(at: int, row: CarRow)
    | BidderOk(at: int, row: CarRow)
    | Priced(at: int, base: int, seen: seq<int>)
    | PaymentSent(at: int, base: int, seen: seq<int>)
    | Releasing(code: int)
    | Done(code: int)
  {
    // Inside the lock, before the insert.
    predicate Critical() { Locked? || CarOk? || BidderOk? || Priced? || PaymentSent? }
    // Between the read of the highest bid and the insert.
    predicate Committed() { Priced? || PaymentSent? }
  }

  // amount is absent when it is missing, zero or not a number.
  datatype Request = Request(user: Option<User>, car: CarId, amount: Option<int>, phase: Phase)

  // What getHighestBid looks at.  The source's query is PaidOnly.
  datatype Scope = PaidOnly | AllBids

  datatype State = State(scope: Scope, now: int, cars: map<CarId, CarRow>, bids: seq<Bid>,
                         locks: map<CarId, Lease>, reqs: map<Rid, Request>)

  // What a request does between two awaits.
  datatype Move =
    | Acquire
    | ReadCar
    | CheckBidder(phoneOk: bool, depositHeld: bool)
    | ReadHighest
    | Pay
    | Insert(reloaded: bool)
    | Throw
    | Release

  datatype Action =
    | Arrive(rid: Rid, user: Option<User>, car: CarId, amount: Option<int>)
    | Do(rid: Rid, move: Move)
    | Tick(ms: nat)
    | ConfirmPayment(i: nat)
    | FailPayment(i: nat)
    | EditCar(car: CarId, row: CarRow)

  // ---------- prices ----------

  function MinIncrement(bid: int): (r: int)
    ensures r > 0
  {
    if bid < 100000 then 1000 else if bid < 500000 then 5000 else if bid < 2000000 then 10000 else 25000
  }

  function Max(a: int, b: int): int { if a < b then b else a }

  // The highest amount on the car among the bids looked at, 0 if there is none.
  function Highest(bids: seq<Bid>, car: CarId, scope: Scope): (r: int)
    ensures r >= 0
    ensures forall b | b in bids && b.car == car && (scope == AllBids || b.status == Paid) :: b.amount <= r
  {
    if bids == [] then 0
    else
      var b, rest := bids[|bids| - 1], Highest(bids[..|bids| - 1], car, scope);
      if b.car == car && (scope == AllBids || b.status == Paid) then Max(b.amount, rest) else rest
  }

  // Math.max(highest, currentBid) || price
  function CurrentBid(highest: int, row: CarRow): int {
    var m := Max(highest, row.currentBid);
    if m != 0 then m else row.price
  }

  function AmountsOn(bids: seq<Bid>, car: CarId): seq<int> {
    if bids == [] then []
    else
      var b, rest := bids[|bids| - 1], AmountsOn(bids[..|bids| - 1], car);
      if b.car == car then rest + [b.amount] else rest
  }

  predicate NoneAbove(amounts: seq<int>, base: int) {
    forall x | x in amounts :: x <= base
  }

  // ---------- steps ----------

  function Goto(s: State, rid: Rid, phase: Phase): State
    requires rid in s.reqs
  {
    s.(reqs := s.reqs[rid := s.reqs[rid].(phase := phase)])
  }

  predicate Free(s: State, car: CarId) {
    car !in s.locks || s.locks[car].expiresAt <= s.now
  }

  function AcquireStep(s: State, rid: Rid): State
    requires rid in s.reqs
  {
    var r := s.reqs[rid];
    if !r.phase.Received? then s
    else if r.user.None? then Goto(s, rid, Done(401))
    else if r.amount.None? then Goto(s, rid, Done(400))
    else if !Free(s, r.car) then Goto(s, rid, Done(409))
    else Goto(s, rid, Locked(s.now)).(locks := s.locks[r.car := Lease(rid, s.now + TTL)])
  }

  predicate Open(row: CarRow, user: User, now: int) {
    && row.dealer != user && row.highestBidder != Some(user)
    && row.live && !(row.auctionEnd.Some? && row.auctionEnd.value <= now)
  }

  function ReadCarStep(s: State, rid: Rid): State
    requires rid in s.reqs
  {
    var r := s.reqs[rid];
    if !(r.phase.Locked? && r.user.Some?) then s
    else if r.car !in s.cars then Goto(s, rid, Releasing(404))
    else if !Open(s.cars[r.car], r.user.value, s.now) then Goto(s, rid, Releasing(400))
    else Goto(s, rid, CarOk(r.phase.at, s.cars[r.car]))
  }

  function CheckBidderStep(s: State, rid: Rid, phoneOk: bool, depositHeld: bool): State
    requires rid in s.reqs
  {
    var r := s.reqs[rid];
    if !(r.phase.CarOk? && r.amount.Some?) then s
    else if !phoneOk then Goto(s, rid, Releasing(400))
    else if r.amount.value > 5000000 && !depositHeld then Goto(s, rid, Releasing(403))
    else Goto(s, rid, BidderOk(r.phase.at, r.phase.row))
  }

  function ReadHighestStep(s: State, rid: Rid): State
    requires rid in s.reqs
  {
    var r := s.reqs[rid];
    if !(r.phase.BidderOk? && r.amount.Some?) then s
    else
      var base := CurrentBid(Highest(s.bids, r.car, s.scope), r.phase.row);
      if r.amount.value < base + MinIncrement(base) then Goto(s, rid, Releasing(400))
      else Goto(s, rid, Priced(r.phase.at, base, AmountsOn(s.bids, r.car)))
  }

  function PayStep(s: State, rid: Rid): State
    requires rid in s.reqs
  {
    var p := s.reqs[rid].phase;
    if p.Priced? then Goto(s, rid, PaymentSent(p.at, p.base, p.seen)) else s
  }

  // kayad_place_bid_atomic re-checks the car and the paid market, then inserts one pending bid.
  predicate Accepts(s: State, r: Request)
    requires r.user.Some? && r.amount.Some?
  {
    && r.amount.value > 0
    && r.car in s.cars && Open(s.cars[r.car], r.user.value, s.now)
    && var row := s.cars[r.car];
       var market := Max(Max(Highest(s.bids, r.car, PaidOnly), row.currentBid), row.price);
       r.amount.value >= market + MinIncrement(market)
  }

  // The request then reloads the bid; if that fails it answers 500 although the bid is in.
  function InsertStep(s: State, rid: Rid, reloaded: bool): State
    requires rid in s.reqs
  {
    var r := s.reqs[rid];
    if !(r.phase.PaymentSent? && r.user.Some? && r.amount.Some?) then s
    else if !Accepts(s, r) then Goto(s, rid, Releasing(500))
    else
      var bid := Bid(rid, r.car, r.user.value, r.amount.value, Pending, r.phase.base, NoneAbove(r.phase.seen, r.phase.base));
      Goto(s, rid, Releasing(if reloaded then 200 else 500)).(bids := s.bids + [bid])
  }

  // Any awaited call of a request inside the lock may throw; the handler answers 500.
  function ThrowStep(s: State, rid: Rid): State
    requires rid in s.reqs
  {
    if s.reqs[rid].phase.Critical() then Goto(s, rid, Releasing(500)) else s
  }

  // The finally block: the lock is deleted only if this request still holds it.
  function ReleaseStep(s: State, rid: Rid): State
    requires rid in s.reqs
  {
    var r := s.reqs[rid];
    if !r.phase.Releasing? then s
    else
      var s' := Goto(s, rid, Done(r.phase.code));
      if r.car in s.locks && s.locks[r.car].holder == rid then s'.(locks := s.locks - {r.car}) else s'
  }

  // kayad_confirm_bid_payment_atomic: the bid becomes paid and may advance the market.
  function ConfirmStep(s: State, i: nat): State
    requires i < |s.bids|
  {
    var b := s.bids[i];
    if b.status != Pending || b.car !in s.cars then s
    else
      var row := s.cars[b.car];
      var s' := s.(bids := s.bids[i := b.(status := Paid)]);
      if row.live && (row.auctionEnd.None? || row.auctionEnd.value > s.now) && b.amount > row.currentBid
      then s'.(cars := s.cars[b.car := row.(currentBid := b.amount, highestBidder := Some(b.user))])
      else s'
  }

  function MoveStep(s: State, rid: Rid, m: Move): State
    requires rid in s.reqs
  {
    match m
    case Acquire => AcquireStep(s, rid)
    case ReadCar => ReadCarStep(s, rid)
    case CheckBidder(p, d) => CheckBidderStep(s, rid, p, d)
    case ReadHighest => ReadHighestStep(s, rid)
    case Pay => PayStep(s, rid)
    case Insert(reloaded) => InsertStep(s, rid, reloaded)
    case Throw => ThrowStep(s, rid)
    case Release => ReleaseStep(s, rid)
  }

  // An action that is not enabled leaves the state alone.
  function Step(s: State, a: Action): State {
    match a
    case Arrive(rid, user, car, amount) =>
      if rid in s.reqs then s else s.(reqs := s.reqs[rid := Request(user, car, amount, Received)])
    case Do(rid, move) => if rid in s.reqs then MoveStep(s, rid, move) else s
    case Tick(ms) => s.(now := s.now + ms)
    case ConfirmPayment(i) => if i < |s.bids| then ConfirmStep(s, i) else s
    case FailPayment(i) =>
      if i < |s.bids| then s.(bids := s.bids[i := s.bids[i].(status := Failed)]) else s
    case EditCar(car, row) => s.(cars := s.cars[car := row])
  }

  function Run(s: State, actions: seq<Action>): State
    decreases |actions|
  {
    if actions == [] then s else Run(Step(s, actions[0]), actions[1..])
  }

  // Nothing has been requested, inserted or locked yet.
  predicate Initial(s: State) {
    s.bids == [] && s.locks == map[] && s.reqs == map[]
  }

  // No request is still inside the lock when its lease runs out.
  predicate Timely(s: State) {
    forall rid | rid in s.reqs && s.reqs[rid].phase.Critical() :: s.now < s.reqs[rid].phase.at + TTL
  }

  predicate TimelyRun(s: State, actions: seq<Action>)
    decreases |actions|
  {
    Timely(s) && (actions != [] ==> TimelyRun(Step(s, actions[0]), actions[1..]))
  }

  // ---------- what every step keeps ----------

  // A critical request holds the lease of its car.
  predicate Exclusive(s: State) {
    forall rid | rid in s.reqs && s.reqs[rid].phase.Critical() ::
      && s.reqs[rid].car in s.locks
      && s.locks[s.reqs[rid].car] == Lease(rid, s.reqs[rid].phase.at + TTL)
  }

  // Since a committed request read the highest bid, nobody has inserted on its car.
  predicate Undisturbed(s: State) {
    forall rid | rid in s.reqs && s.reqs[rid].phase.Committed() ::
      var r := s.reqs[rid];
      && AmountsOn(s.bids, r.car) == r.phase.seen
      && r.amount.Some? && r.amount.value >= r.phase.base + MinIncrement(r.phase.base)
      && (s.scope == AllBids ==> NoneAbove(r.phase.seen, r.phase.base))
  }

  // Bid j tops what its request read by the minimum increment, and what it read topped all earlier
  // bids if the read was settled.
  predicate Priceful(s: State) {
    forall j | 0 <= j < |s.bids| ::
      var b := s.bids[j];
      && b.amount > 0 && b.amount >= b.base + MinIncrement(b.base)
      && (s.scope == AllBids ==> b.settled)
      && (b.settled ==> forall i | 0 <= i < j && s.bids[i].car == b.car :: s.bids[i].amount <= b.base)
  }

  predicate Finished(p: Phase) { p.Releasing? || p.Done? }

  predicate OneEach(s: State) {
    && (forall j | 0 <= j < |s.bids| :: s.bids[j].rid in s.reqs && Finished(s.reqs[s.bids[j].rid].phase))
    && (forall i, j | 0 <= i < j < |s.bids| :: s.bids[i].rid != s.bids[j].rid)
  }

  // A lock is held on behalf of a request for that car that has not come to its end.
  predicate NoLeak(s: State) {
    forall c | c in s.locks ::
      && s.locks[c].holder in s.reqs
      && var r := s.reqs[s.locks[c].holder];
         r.car == c && (r.phase.Critical() || r.phase.Releasing?)
  }

  predicate Inv(s: State) {
    Exclusive(s) && Undisturbed(s) && Priceful(s) && OneEach(s) && NoLeak(s)
  }

  // ---------- lists of bids ----------

  lemma AmountsAppend(bids: seq<Bid>, b: Bid, car: CarId)
    ensures AmountsOn(bids + [b], car) == AmountsOn(bids, car) + if b.car == car then [b.amount] else []
  {
    assert (bids + [b])[..|bids|] == bids;
  }

  lemma {:induction false} AmountsMember(bids: seq<Bid>, car: CarId, i: nat)
    requires i < |bids| && bids[i].car == car
    ensures bids[i].amount in AmountsOn(bids, car)
  {
    if i < |bids| - 1 {
      AmountsMember(bids[..|bids| - 1], car, i);
    }
  }

  lemma {:induction false} AmountsOrigin(bids: seq<Bid>, car: CarId, x: int)
    requires x in AmountsOn(bids, car)
    ensures exists b :: b in bids && b.car == car && b.amount == x
  {
    var k := |bids| - 1;
    if bids[k].car == car && bids[k].amount == x {
      assert bids[k] in bids;
    } else {
      AmountsOrigin(bids[..k], car, x);
    }
  }

  lemma {:induction false} AmountsIgnoreStatus(bids: seq<Bid>, i: nat, status: Status, car: CarId)
    requires i < |bids|
    ensures AmountsOn(bids[i := bids[i].(status := status)], car) == AmountsOn(bids, car)
  {
    var bids' := bids[i := bids[i].(status := status)];
    var k := |bids| - 1;
    if i == k {
      assert bids'[..k] == bids[..k];
    } else {
      assert bids'[..k] == bids[..k][i := bids[..k][i].(status := status)];
      AmountsIgnoreStatus(bids[..k], i, status, car);
    }
  }

  // ---------- the invariant ----------

  lemma SettleKeeps(s: State, i: nat, status: Status, cars: map<CarId, CarRow>)
    requires Inv(s) && i < |s.bids|
    ensures Inv(s.(bids := s.bids[i := s.bids[i].(status := status)], cars := cars))
  {
    forall car ensures AmountsOn(s.bids[i := s.bids[i].(status := status)], car) == AmountsOn(s.bids, car) {
      AmountsIgnoreStatus(s.bids, i, status, car);
    }
  }

  // A request moves on inside the lock, or gives up.
  predicate Onward(p: Phase, p': Phase) {
    && p.Critical()
    && (p'.Releasing? || (p'.Critical() && p'.at == p.at))
    && (p'.Committed() ==> p.Committed() && p'.base == p.base && p'.seen == p.seen)
  }

  lemma OnwardKeeps(s: State, rid: Rid, p: Phase)
    requires Inv(s) && rid in s.reqs && Onward(s.reqs[rid].phase, p)
    ensures Inv(Goto(s, rid, p))
  {
    var s' := Goto(s, rid, p);
    assert Undisturbed(s') by { hide Exclusive, OneEach, Priceful, NoLeak, AmountsOn; }
    assert Exclusive(s') by { hide Undisturbed, OneEach, Priceful, NoLeak; }
    assert OneEach(s') by { hide Undisturbed, Exclusive, Priceful, NoLeak; }
    assert NoLeak(s') by { hide Undisturbed, Priceful, OneEach; }
    assert Priceful(s') by { hide Undisturbed, Exclusive, OneEach, NoLeak; }
  }

  // A bid is added on a car that no request has locked.
  lemma AddBidKeeps(s: State, b: Bid)
    requires Inv(s) && b.rid in s.reqs && Finished(s.reqs[b.rid].phase)
    requires forall j | 0 <= j < |s.bids| :: s.bids[j].rid != b.rid
    requires forall q | q in s.reqs && s.reqs[q].phase.Critical() :: s.reqs[q].car != b.car
    requires b.amount > 0 && b.amount >= b.base + MinIncrement(b.base) && (s.scope == AllBids ==> b.settled)
    requires b.settled ==> NoneAbove(AmountsOn(s.bids, b.car), b.base)
    ensures Inv(s.(bids := s.bids + [b]))
  {
    var s' := s.(bids := s.bids + [b]);
    assert Undisturbed(s') by {
      hide Exclusive, OneEach, Priceful, NoLeak;
      forall q | q in s.reqs && s.reqs[q].phase.Committed()
        ensures AmountsOn(s'.bids, s.reqs[q].car) == s.reqs[q].phase.seen
      {
        AmountsAppend(s.bids, b, s.reqs[q].car);
      }
      hide AmountsOn;
    }
    assert Priceful(s') by {
      hide Exclusive, OneEach, Undisturbed, NoLeak;
      forall i | 0 <= i < |s.bids| && s.bids[i].car == b.car && b.settled
        ensures s.bids[i].amount <= b.base
      {
        AmountsMember(s.bids, b.car, i);
      }
    }
    assert Exclusive(s') by { hide Undisturbed, OneEach, Priceful, NoLeak; }
    assert OneEach(s') by { hide Undisturbed, Exclusive, Priceful, NoLeak; }
    assert NoLeak(s') by { hide Undisturbed, Exclusive, Priceful, OneEach; }
  }

  // Two critical requests never share a car.
  lemma CriticalAlone(s: State, p: Rid, q: Rid)
    requires Exclusive(s) && p in s.reqs && q in s.reqs && s.reqs[p].phase.Critical() && s.reqs[q].phase.Critical()
    requires s.reqs[p].car == s.reqs[q].car
    ensures p == q
  {
  }

  lemma InsertKeeps(s: State, rid: Rid, reloaded: bool)
    requires Inv(s) && rid in s.reqs
    ensures Inv(InsertStep(s, rid, reloaded))
  {
    hide Priceful, NoLeak, Accepts, AmountsOn;
    var r, s' := s.reqs[rid], InsertStep(s, rid, reloaded);
    if |s'.bids| > |s.bids| {
      var code := if reloaded then 200 else 500;
      var s1, b := Goto(s, rid, Releasing(code)), s'.bids[|s.bids|];
      OnwardKeeps(s, rid, Releasing(code));
      forall q | q in s1.reqs && s1.reqs[q].phase.Critical()
        ensures s1.reqs[q].car != b.car
      {
        assert q != rid;
        if s.reqs[q].car == b.car {
          CriticalAlone(s, q, rid);
        }
      }
      assert b.amount > 0 by { assert Accepts(s, r); AcceptedPositive(s, r); }
      AddBidKeeps(s1, b);
    } else if s' != s {
      OnwardKeeps(s, rid, Releasing(500));
    }
  }

  lemma AcceptedPositive(s: State, r: Request)
    requires r.user.Some? && r.amount.Some? && Accepts(s, r)
    ensures r.amount.value > 0
  {
  }

  // A query over all bids leaves none above the current bid it yields, if that is let through.
  lemma AllBidsSettle(s: State, car: CarId, row: CarRow)
    requires Priceful(s)
    ensures NoneAbove(AmountsOn(s.bids, car), CurrentBid(Highest(s.bids, car, AllBids), row))
  {
    forall x | x in AmountsOn(s.bids, car)
      ensures 0 < x <= Highest(s.bids, car, AllBids)
    {
      AmountsOrigin(s.bids, car, x);
    }
  }

  lemma PricedKeeps(s: State, rid: Rid, base: int)
    requires Inv(s) && rid in s.reqs && s.reqs[rid].phase.BidderOk?
    requires s.reqs[rid].amount.Some? && s.reqs[rid].amount.value >= base + MinIncrement(base)
    requires s.scope == AllBids ==> NoneAbove(AmountsOn(s.bids, s.reqs[rid].car), base)
    ensures Inv(Goto(s, rid, Priced(s.reqs[rid].phase.at, base, AmountsOn(s.bids, s.reqs[rid].car))))
  {
    var s' := Goto(s, rid, Priced(s.reqs[rid].phase.at, base, AmountsOn(s.bids, s.reqs[rid].car)));
    assert Undisturbed(s') by { hide Exclusive, OneEach, Priceful, NoLeak, AmountsOn; }
    assert Exclusive(s') by { hide Undisturbed, OneEach, Priceful, NoLeak; }
    assert OneEach(s') by { hide Undisturbed, Exclusive, Priceful, NoLeak; }
    assert NoLeak(s') by { hide Undisturbed, Priceful, OneEach; }
    assert Priceful(s') by { hide Undisturbed, Exclusive, OneEach, NoLeak; }
  }

  lemma ReadHighestKeeps(s: State, rid: Rid)
    requires Inv(s) && rid in s.reqs
    ensures Inv(ReadHighestStep(s, rid))
  {
    hide Inv, Highest, AmountsOn, Priceful;
    var r := s.reqs[rid];
    if r.phase.BidderOk? && r.amount.Some? {
      var base := CurrentBid(Highest(s.bids, r.car, s.scope), r.phase.row);
      if r.amount.value < base + MinIncrement(base) {
        OnwardKeeps(s, rid, Releasing(400));
      } else {
        assert Priceful(s) by { InvPriceful(s); }
        if s.scope == AllBids {
          AllBidsSettle(s, r.car, r.phase.row);
        }
        PricedKeeps(s, rid, base);
      }
    }
  }

  lemma InvPriceful(s: State)
    requires Inv(s)
    ensures Priceful(s)
  {
  }

  lemma RefusedKeeps(s: State, rid: Rid, code: int)
    requires Inv(s) && rid in s.reqs && s.reqs[rid].phase.Received?
    ensures Inv(Goto(s, rid, Done(code)))
  {
    hide Exclusive, Undisturbed, Priceful, OneEach;
    EndKeeps(s, rid, code);
  }

  lemma GrantKeeps(s: State, rid: Rid)
    requires Inv(s) && Timely(s) && rid in s.reqs && s.reqs[rid].phase.Received? && Free(s, s.reqs[rid].car)
    ensures Inv(Goto(s, rid, Locked(s.now)).(locks := s.locks[s.reqs[rid].car := Lease(rid, s.now + TTL)]))
  {
    var car := s.reqs[rid].car;
    var s' := Goto(s, rid, Locked(s.now)).(locks := s.locks[car := Lease(rid, s.now + TTL)]);
    assert Undisturbed(s') by { hide Exclusive, OneEach, Priceful, NoLeak, AmountsOn; }
    assert Exclusive(s') by {
      hide Undisturbed, OneEach, Priceful, NoLeak;
      // the lease that was there, if any, had run out, so its holder is not critical
      assert forall q | q in s.reqs && s.reqs[q].phase.Critical() :: s.reqs[q].car != car;
    }
    assert OneEach(s') by { hide Undisturbed, Exclusive, Priceful, NoLeak; }
    assert NoLeak(s') by { hide Undisturbed, Priceful, OneEach, Exclusive; }
    assert Priceful(s') by { hide Undisturbed, Exclusive, OneEach, NoLeak; }
  }

  lemma AcquireKeeps(s: State, rid: Rid)
    requires Inv(s) && Timely(s) && rid in s.reqs
    ensures Inv(AcquireStep(s, rid))
  {
    hide Inv, Timely;
    var r := s.reqs[rid];
    if r.phase.Received? {
      if r.user.None? || r.amount.None? || !Free(s, r.car) {
        RefusedKeeps(s, rid, if r.user.None? then 401 else if r.amount.None? then 400 else 409);
      } else {
        GrantKeeps(s, rid);
      }
    }
  }

  lemma UnlockKeeps(s: State, rid: Rid)
    requires Inv(s) && rid in s.reqs && s.reqs[rid].phase.Releasing?
    requires var car := s.reqs[rid].car; car in s.locks && s.locks[car].holder == rid
    ensures Inv(s.(locks := s.locks - {s.reqs[rid].car}))
  {
    var s' := s.(locks := s.locks - {s.reqs[rid].car});
    assert Undisturbed(s') by { hide Exclusive, OneEach, Priceful, NoLeak, AmountsOn; }
    assert Exclusive(s') by { hide Undisturbed, OneEach, Priceful, NoLeak; }
    assert OneEach(s') by { hide Undisturbed, Exclusive, Priceful, NoLeak; }
    assert NoLeak(s') by { hide Undisturbed, Priceful, OneEach, Exclusive; }
    assert Priceful(s') by { hide Undisturbed, Exclusive, OneEach, NoLeak; }
  }

  lemma EndKeeps(s: State, rid: Rid, code: int)
    requires Inv(s) && rid in s.reqs && (s.reqs[rid].phase.Releasing? || s.reqs[rid].phase.Received?)
    requires forall c | c in s.locks :: s.locks[c].holder != rid
    ensures Inv(Goto(s, rid, Done(code)))
  {
    var s' := Goto(s, rid, Done(code));
    assert Undisturbed(s') by { hide Exclusive, OneEach, Priceful, NoLeak, AmountsOn; }
    assert Exclusive(s') by { hide Undisturbed, OneEach, Priceful, NoLeak; }
    assert OneEach(s') by { hide Undisturbed, Exclusive, Priceful, NoLeak; }
    assert NoLeak(s') by { hide Undisturbed, Priceful, OneEach, Exclusive; }
    assert Priceful(s') by { hide Undisturbed, Exclusive, OneEach, NoLeak; }
  }

  lemma ReleaseKeeps(s: State, rid: Rid)
    requires Inv(s) && rid in s.reqs
    ensures Inv(ReleaseStep(s, rid))
  {
    var r := s.reqs[rid];
    if r.phase.Releasing? {
      var held := r.car in s.locks && s.locks[r.car].holder == rid;
      var s1 := if held then s.(locks := s.locks - {r.car}) else s;
      assert forall c | c in s1.locks :: s1.locks[c].holder != rid by { hide Exclusive, Undisturbed, Priceful, OneEach; }
      hide Inv;
      if held {
        UnlockKeeps(s, rid);
      }
      EndKeeps(s1, rid, r.phase.code);
      assert ReleaseStep(s, rid) == Goto(s1, rid, Done(r.phase.code));
    }
  }

  lemma QuietMoveKeeps(s: State, rid: Rid, m: Move)
    requires Inv(s) && rid in s.reqs
    requires m.ReadCar? || m.CheckBidder? || m.Pay? || m.Throw?
    ensures Inv(MoveStep(s, rid, m))
  {
    hide Inv;
    var s' := MoveStep(s, rid, m);
    if s' != s {
      OnwardKeeps(s, rid, s'.reqs[rid].phase);
    }
  }

  lemma MoveKeeps(s: State, rid: Rid, m: Move)
    requires Inv(s) && Timely(s) && rid in s.reqs
    ensures Inv(MoveStep(s, rid, m))
  {
    hide Inv, Timely;
    match m
    case Acquire => AcquireKeeps(s, rid);
    case ReadHighest => ReadHighestKeeps(s, rid);
    case Insert(reloaded) => InsertKeeps(s, rid, reloaded);
    case Release => ReleaseKeeps(s, rid);
    case _ => QuietMoveKeeps(s, rid, m);
  }

  lemma ArriveKeeps(s: State, a: Action)
    requires Inv(s) && (a.Arrive? || a.Tick? || a.EditCar?)
    ensures Inv(Step(s, a))
  {
  }

  lemma StepKeeps(s: State, a: Action)
    requires Inv(s) && Timely(s)
    ensures Inv(Step(s, a)) && Step(s, a).scope == s.scope
  {
    hide Inv, Timely;
    match a
    case ConfirmPayment(i) =>
      if i < |s.bids| {
        SettleKeeps(s, i, Paid, Step(s, a).cars);
      }
    case FailPayment(i) =>
      if i < |s.bids| {
        SettleKeeps(s, i, Failed, s.cars);
      }
    case Do(rid, m) =>
      if rid in s.reqs {
        MoveKeeps(s, rid, m);
      }
    case _ => ArriveKeeps(s, a);
  }

  lemma {:induction false} RunKeeps(s: State, actions: seq<Action>)
    requires Inv(s) && TimelyRun(s, actions)
    ensures Inv(Run(s, actions)) && Run(s, actions).scope == s.scope
    decreases |actions|
  {
    if actions != [] {
      StepKeeps(s, actions[0]);
      RunKeeps(Step(s, actions[0]), actions[1..]);
    }
  }

  // ---------- runs ----------

  lemma {:induction false} RunAppend(s: State, a: seq<Action>, b: seq<Action>)
    ensures Run(s, a + b) == Run(Run(s, a), b)
    ensures TimelyRun(s, a + b) <==> TimelyRun(s, a) && TimelyRun(Run(s, a), b)
    decreases |a|
  {
    if a == [] {
      assert a + b == b;
    } else {
      assert (a + b)[1..] == a[1..] + b;
      RunAppend(Step(s, a[0]), a[1..], b);
    }
  }

  // A request that has answered never goes back, and what it read does not change while it matters.
  predicate Forward(r: Request, r': Request) {
    && r'.car == r.car
    && (Finished(r.phase) ==> Finished(r'.phase))
    && (r.phase.Committed() && r'.phase.Committed() ==> r'.phase.seen == r.phase.seen)
    && (r.phase.Committed() ==> r'.phase.Committed() || Finished(r'.phase))
  }

  lemma StepForward(s: State, a: Action, rid: Rid)
    requires rid in s.reqs
    ensures rid in Step(s, a).reqs && Forward(s.reqs[rid], Step(s, a).reqs[rid])
  {
    if a.Do? && a.rid in s.reqs {
      MoveForward(s, a.rid, a.move);
    }
  }

  lemma MoveForward(s: State, rid: Rid, m: Move)
    requires rid in s.reqs
    ensures var s' := MoveStep(s, rid, m);
      s'.reqs.Keys == s.reqs.Keys && Forward(s.reqs[rid], s'.reqs[rid]) && s'.reqs == s.reqs[rid := s'.reqs[rid]]
  {
    hide Highest, AmountsOn, Accepts, Open, Free;
    assert s.reqs == s.reqs[rid := s.reqs[rid]];
    var s' := MoveStep(s, rid, m);
    assert s' == s || exists p :: s'.reqs == Goto(s, rid, p).reqs;
  }

  lemma {:induction false} RunForward(s: State, actions: seq<Action>, rid: Rid)
    requires rid in s.reqs && (s.reqs[rid].phase.Committed() || Finished(s.reqs[rid].phase))
    ensures rid in Run(s, actions).reqs
    ensures var r, r' := s.reqs[rid], Run(s, actions).reqs[rid];
      && r'.car == r.car
      && (Finished(r.phase) ==> Finished(r'.phase))
      && (r'.phase.Committed() ==> r.phase.Committed() && r'.phase.seen == r.phase.seen)
    decreases |actions|
  {
    if actions != [] {
      StepForward(s, actions[0], rid);
      RunForward(Step(s, actions[0]), actions[1..], rid);
    }
  }

  // Between one request's read of the highest bid and its insert, no other request inserts on its car.
  lemma NobodyInsertsBetween(s0: State, before: seq<Action>, between: seq<Action>, rid: Rid)
    requires Initial(s0) && TimelyRun(s0, before + between)
    requires var s1 := Run(s0, before); rid in s1.reqs && s1.reqs[rid].phase.Committed()
    requires var s2 := Run(s0, before + between); rid in s2.reqs && s2.reqs[rid].phase.Committed()
    ensures var s1, s2 := Run(s0, before), Run(s0, before + between);
      && s1.reqs[rid].car == s2.reqs[rid].car
      && AmountsOn(s2.bids, s1.reqs[rid].car) == AmountsOn(s1.bids, s1.reqs[rid].car)
  {
    RunAppend(s0, before, between);
    RunKeeps(s0, before);
    RunKeeps(s0, before + between);
    RunForward(Run(s0, before), between, rid);
  }

  lemma IncrementGrows(a: int, b: int)
    requires a <= b
    ensures a + MinIncrement(a) <= b + MinIncrement(b)
  {
  }

  // Bid j outbids bid i by at least the minimum increment.
  predicate Outbids(bids: seq<Bid>, i: nat, j: nat)
    requires i < |bids| && j < |bids|
  {
    bids[j].amount >= bids[i].amount + MinIncrement(bids[i].amount)
  }

  // A bid outbids every earlier bid on its car if the read behind it was settled; when getHighestBid
  // ranges over all bids, every read is.
  lemma InsertedAmountsIncrease(s0: State, actions: seq<Action>)
    requires Initial(s0) && TimelyRun(s0, actions)
    ensures var s := Run(s0, actions);
      forall i, j | 0 <= i < j < |s.bids| && s.bids[i].car == s.bids[j].car && (s.bids[j].settled || s0.scope == AllBids) ::
        Outbids(s.bids, i, j)
  {
    RunKeeps(s0, actions);
    var s := Run(s0, actions);
    forall i, j | 0 <= i < j < |s.bids| && s.bids[i].car == s.bids[j].car && (s.bids[j].settled || s0.scope == AllBids)
      ensures Outbids(s.bids, i, j)
    {
      IncrementGrows(s.bids[i].amount, s.bids[j].base);
    }
  }

  // The request asks for this amount, and the highest bid is read now.
  function ReadFor(s: State, rid: Rid, amount: int): State
    requires rid in s.reqs
  {
    ReadHighestStep(s.(reqs := s.reqs[rid := s.reqs[rid].(amount := Some(amount))]), rid)
  }

  // A settled read is exactly what the check needs: whatever amount a request asks for, passing the check
  // means outbidding all bids that are on the car, if and only if none of them is above the current bid
  // that was read.
  lemma SettledIsExact(s: State, rid: Rid)
    requires rid in s.reqs && s.reqs[rid].phase.BidderOk?
    ensures var r := s.reqs[rid];
      NoneAbove(AmountsOn(s.bids, r.car), CurrentBid(Highest(s.bids, r.car, s.scope), r.phase.row))
      <==> forall amount, x | ReadFor(s, rid, amount).reqs[rid].phase.Priced? && x in AmountsOn(s.bids, r.car) ::
             amount >= x + MinIncrement(x)
  {
    var r := s.reqs[rid];
    var base, seen := CurrentBid(Highest(s.bids, r.car, s.scope), r.phase.row), AmountsOn(s.bids, r.car);
    forall amount
      ensures ReadFor(s, rid, amount).reqs[rid].phase.Priced? <==> amount >= base + MinIncrement(base)
    {
      hide AmountsOn, Highest, CurrentBid, MinIncrement;
    }
    hide ReadFor, AmountsOn, Highest, CurrentBid;
    if NoneAbove(seen, base) {
      forall amount, x | ReadFor(s, rid, amount).reqs[rid].phase.Priced? && x in seen
        ensures amount >= x + MinIncrement(x)
      {
        IncrementGrows(x, base);
      }
    } else {
      var x :| x in seen && x > base;
      var amount := base + MinIncrement(base);
      assert ReadFor(s, rid, amount).reqs[rid].phase.Priced?;
      if amount >= x + MinIncrement(x) {
        IncrementGrows(base, x);
      }
    }
  }

  // ---------- what the database keeps ----------

  // Bids stay, with their request, car and amount.
  ghost predicate Extends(bids: seq<Bid>, bids': seq<Bid>) {
    && |bids| <= |bids'|
    && forall i | 0 <= i < |bids| ::
         bids'[i].rid == bids[i].rid && bids'[i].car == bids[i].car && bids'[i].amount == bids[i].amount
  }

  lemma StepExtends(s: State, a: Action)
    ensures Extends(s.bids, Step(s, a).bids)
  {
    hide Highest, AmountsOn, MoveStep, NoneAbove, CurrentBid, MinIncrement;
    if a.Do? && a.rid in s.reqs {
      MoveAnswers(s, a.rid, a.move);
    }
  }

  lemma {:induction false} RunExtends(s: State, actions: seq<Action>)
    ensures Extends(s.bids, Run(s, actions).bids)
    decreases |actions|
  {
    if actions != [] {
      hide Step;
      StepExtends(s, actions[0]);
      RunExtends(Step(s, actions[0]), actions[1..]);
    }
  }

  lemma InsertOutbidsPaid(s: State, rid: Rid, reloaded: bool, i: nat)
    requires rid in s.reqs && |InsertStep(s, rid, reloaded).bids| > |s.bids| && i < |s.bids|
    requires s.bids[i].status == Paid && s.bids[i].car == s.reqs[rid].car
    ensures Outbids(InsertStep(s, rid, reloaded).bids, i, |s.bids|)
  {
    var row := s.cars[s.reqs[rid].car];
    var market := Max(Max(Highest(s.bids, s.reqs[rid].car, PaidOnly), row.currentBid), row.price);
    assert s.bids[i] in s.bids && s.bids[i].amount <= market;
    IncrementGrows(s.bids[i].amount, market);
  }

  lemma InsertsOne(s: State, a: Action)
    requires |Step(s, a).bids| > |s.bids|
    ensures a.Do? && a.rid in s.reqs && a.move.Insert? && |Step(s, a).bids| == |s.bids| + 1
    ensures Step(s, a).bids[|s.bids|].car == s.reqs[a.rid].car
  {
    hide Highest, AmountsOn, NoneAbove, CurrentBid, MinIncrement, Accepts, Open, Free;
  }

  // In every run, whatever the locks and leases do: a bid outbids all bids on its car that were paid when it
  // went in, and goes on doing so whatever follows.
  lemma PaidBidsAreOutbid(s0: State, before: seq<Action>, a: Action, after: seq<Action>, i: nat)
    requires var s := Run(s0, before);
      && |Step(s, a).bids| > |s.bids| && i < |s.bids|
      && s.bids[i].status == Paid && s.bids[i].car == Step(s, a).bids[|s.bids|].car
    ensures var j, last := |Run(s0, before).bids|, Run(s0, before + [a] + after).bids;
      j < |last| && last[i].car == last[j].car && Outbids(last, i, j)
  {
    var s := Run(s0, before);
    RunAppend(s0, before, [a]);
    RunAppend(s0, before + [a], after);
    RunOne(s, a);
    InsertsOne(s, a);
    InsertOutbidsPaid(s, a.rid, a.move.reloaded, i);
    StepExtends(s, a);
    RunExtends(Step(s, a), after);
  }

  // Each request inserts at most one bid, and a lock is held only for a request that is still at work.
  lemma OneBidEach(s0: State, actions: seq<Action>)
    requires Initial(s0) && TimelyRun(s0, actions)
    ensures var s := Run(s0, actions);
      && (forall i, j | 0 <= i < j < |s.bids| :: s.bids[i].rid != s.bids[j].rid)
      && (forall c | c in s.locks :: s.locks[c].holder in s.reqs && !s.reqs[s.locks[c].holder].phase.Done?)
      && (forall p, q | p in s.reqs && q in s.reqs && s.reqs[p].phase.Critical() && s.reqs[q].phase.Critical()
                        && s.reqs[p].car == s.reqs[q].car :: p == q)
  {
    RunKeeps(s0, actions);
  }

  // ---------- what the answers mean ----------

  // The request behind a bid has answered 200 or 500, and the bid is what it asked for.
  predicate BidOf(r: Request, b: Bid) {
    && Finished(r.phase) && (r.phase.code == 200 || r.phase.code == 500)
    && r.user == Some(b.user) && r.amount == Some(b.amount) && r.car == b.car
  }

  predicate Inserted(bids: seq<Bid>, rid: Rid) {
    exists j :: 0 <= j < |bids| && bids[j].rid == rid
  }

  predicate Truthful(s: State) {
    && (forall j | 0 <= j < |s.bids| :: s.bids[j].rid in s.reqs && BidOf(s.reqs[s.bids[j].rid], s.bids[j]))
    && (forall i, j | 0 <= i < j < |s.bids| :: s.bids[i].rid != s.bids[j].rid)
    && (forall rid | rid in s.reqs && Finished(s.reqs[rid].phase) && s.reqs[rid].phase.code == 200 :: Inserted(s.bids, rid))
  }

  // A move without an insert: the answer stays once given, and is not 200.
  predicate Unanswered(p: Phase, p': Phase) {
    && (Finished(p) ==> Finished(p') && p'.code == p.code)
    && (!Finished(p) && Finished(p') ==> p'.code != 200)
  }

  lemma MoveAnswers(s: State, rid: Rid, m: Move)
    requires rid in s.reqs
    ensures var s', r := MoveStep(s, rid, m), s.reqs[rid];
      && s'.reqs.Keys == s.reqs.Keys && s'.reqs == s.reqs[rid := r.(phase := s'.reqs[rid].phase)]
      && if s'.bids == s.bids then Unanswered(r.phase, s'.reqs[rid].phase)
         else
           && |s'.bids| == |s.bids| + 1 && s'.bids[..|s.bids|] == s.bids && !Finished(r.phase)
           && s'.bids[|s.bids|].rid == rid && BidOf(s'.reqs[rid], s'.bids[|s.bids|])
  {
    hide Highest, AmountsOn, Accepts, Open, Free, CurrentBid, MinIncrement;
    assert s.reqs == s.reqs[rid := s.reqs[rid]];
    var s' := MoveStep(s, rid, m);
    assert s' == s || exists p :: s'.reqs == Goto(s, rid, p).reqs;
    assert m.Insert? || s'.bids == s.bids;
    if m.Insert? && s' != s && s'.bids != s.bids {
      assert s'.bids == s.bids + [s'.bids[|s.bids|]];
    }
  }

  lemma InsertTruthful(s: State, s': State, rid: Rid)
    requires Truthful(s) && rid in s.reqs && !Finished(s.reqs[rid].phase)
    requires rid in s'.reqs && s'.reqs == s.reqs[rid := s'.reqs[rid]]
    requires |s'.bids| == |s.bids| + 1 && s'.bids[..|s.bids|] == s.bids
    requires s'.bids[|s.bids|].rid == rid && BidOf(s'.reqs[rid], s'.bids[|s.bids|])
    ensures Truthful(s')
  {
    hide BidOf;
    assert forall j | 0 <= j < |s.bids| :: s'.bids[j] == s.bids[j];
    forall q | q in s'.reqs && Finished(s'.reqs[q].phase) && s'.reqs[q].phase.code == 200
      ensures Inserted(s'.bids, q)
    {
      if q != rid {
        var j :| 0 <= j < |s.bids| && s.bids[j].rid == q;
        assert s'.bids[j].rid == q;
      }
    }
    assert forall j | 0 <= j < |s.bids| :: Finished(s.reqs[s.bids[j].rid].phase) by {
      assert forall j | 0 <= j < |s.bids| :: BidOf(s.reqs[s.bids[j].rid], s.bids[j]);
      BidsFinished(s);
    }
  }

  lemma BidsFinished(s: State)
    requires Truthful(s)
    ensures forall j | 0 <= j < |s.bids| :: Finished(s.reqs[s.bids[j].rid].phase)
  {
  }

  lemma SettleTruthful(s: State, s': State, i: nat)
    requires Truthful(s) && i < |s.bids| && s'.reqs == s.reqs
    requires exists status :: s'.bids == s.bids[i := s.bids[i].(status := status)]
    ensures Truthful(s')
  {
    forall q | q in s.reqs && Finished(s.reqs[q].phase) && s.reqs[q].phase.code == 200
      ensures Inserted(s'.bids, q)
    {
      var j :| 0 <= j < |s.bids| && s.bids[j].rid == q;
      assert s'.bids[j].rid == q;
    }
  }

  lemma StepTruthful(s: State, a: Action)
    requires Truthful(s)
    ensures Truthful(Step(s, a))
  {
    hide Highest, MoveStep;
    match a
    case ConfirmPayment(i) =>
      if i < |s.bids| && Step(s, a) != s {
        assert Step(s, a).bids == s.bids[i := s.bids[i].(status := Paid)];
        SettleTruthful(s, Step(s, a), i);
      }
    case FailPayment(i) =>
      if i < |s.bids| {
        SettleTruthful(s, Step(s, a), i);
      }
    case Do(rid, m) =>
      if rid in s.reqs {
        MoveAnswers(s, rid, m);
        if Step(s, a).bids != s.bids {
          InsertTruthful(s, Step(s, a), rid);
        }
      }
    case _ =>
  }

  lemma {:induction false} RunTruthful(s: State, actions: seq<Action>)
    requires Truthful(s)
    ensures Truthful(Run(s, actions))
    decreases |actions|
  {
    if actions != [] {
      StepTruthful(s, actions[0]);
      RunTruthful(Step(s, actions[0]), actions[1..]);
    }
  }

  // In every run, leases outlived or not: a request that answers 200 has inserted exactly one bid, with its
  // own user, car and amount; one that answers anything but 200 or 500 has inserted none; and a 500 may
  // hide a bid, because the answer does not undo the insert.
  lemma AnswersMeanBids(s0: State, actions: seq<Action>, rid: Rid)
    requires Initial(s0) && rid in Run(s0, actions).reqs
    ensures var s := Run(s0, actions);
      var r := s.reqs[rid];
      && (forall i, j | 0 <= i < |s.bids| && 0 <= j < |s.bids| && s.bids[i].rid == s.bids[j].rid == rid :: i == j)
      && (forall j | 0 <= j < |s.bids| && s.bids[j].rid == rid ::
            r.user == Some(s.bids[j].user) && r.amount == Some(s.bids[j].amount) && r.car == s.bids[j].car)
      && (Finished(r.phase) && r.phase.code == 200 ==> Inserted(s.bids, rid))
      && (Finished(r.phase) && r.phase.code != 200 && r.phase.code != 500 ==> !Inserted(s.bids, rid))
      && (!Finished(r.phase) ==> !Inserted(s.bids, rid))
  {
    RunTruthful(s0, actions);
  }

  // ---------- who may bid, when, and how much ----------

  // The increments by tier.
  lemma TiersMean(amount: int, bid: int)
    ensures amount >= bid + MinIncrement(bid) <==>
            || (bid < 100000 && amount >= bid + 1000)
            || (100000 <= bid < 500000 && amount >= bid + 5000)
            || (500000 <= bid < 2000000 && amount >= bid + 10000)
            || (2000000 <= bid && amount >= bid + 25000)
  {
  }

  // The amount tops x by the increment.
  predicate Tops(amount: int, x: int) { amount >= x + MinIncrement(x) }

  lemma TopsDown(amount: int, x: int, y: int)
    requires Tops(amount, y) && x <= y
    ensures Tops(amount, x)
  {
    IncrementGrows(x, y);
  }

  // Topping the highest of the bids looked at is topping each of them, and 0.
  lemma {:induction false} TopsHighest(amount: int, bids: seq<Bid>, car: CarId, scope: Scope)
    ensures Tops(amount, Highest(bids, car, scope)) <==>
            Tops(amount, 0) && forall b | b in bids && b.car == car && (scope == AllBids || b.status == Paid) :: Tops(amount, b.amount)
  {
    hide Tops;
    if bids != [] {
      var k := |bids| - 1;
      TopsHighest(amount, bids[..k], car, scope);
      var b, rest := bids[k], Highest(bids[..k], car, scope);
      assert bids == bids[..k] + [b];
      if b.car == car && (scope == AllBids || b.status == Paid) {
        TopsMax(amount, b.amount, rest);
      }
    }
  }

  lemma TopsMax(amount: int, x: int, y: int)
    ensures Tops(amount, Max(x, y)) <==> Tops(amount, x) && Tops(amount, y)
  {
    IncrementGrows(if x < y then x else y, Max(x, y));
  }

  // The car can be bid on by the user: not the user's own, not already led by the user, live, not ended.
  predicate MayBid(row: CarRow, user: User, now: int) {
    && user != row.dealer
    && (row.highestBidder == None || row.highestBidder.value != user)
    && row.live
    && (row.auctionEnd == None || now < row.auctionEnd.value)
  }

  // A bid goes in exactly when a request that has paid finds, at that moment, that it may bid on the car, and
  // that its amount tops 0, the car's price and current bid, and every paid bid on it; it goes in as pending.
  lemma InsertsExactly(s: State, a: Action)
    ensures |Step(s, a).bids| > |s.bids| <==>
            && a.Do? && a.move.Insert? && a.rid in s.reqs
            && var r := s.reqs[a.rid];
               && r.phase.PaymentSent? && r.user.Some? && r.amount.Some? && r.amount.value > 0
               && r.car in s.cars && MayBid(s.cars[r.car], r.user.value, s.now)
               && Tops(r.amount.value, 0) && Tops(r.amount.value, s.cars[r.car].price)
               && Tops(r.amount.value, s.cars[r.car].currentBid)
               && forall b | b in s.bids && b.car == r.car && b.status == Paid :: Tops(r.amount.value, b.amount)
    ensures |Step(s, a).bids| > |s.bids| ==>
            && |Step(s, a).bids| == |s.bids| + 1 && Step(s, a).bids[..|s.bids|] == s.bids
            && var b, r := Step(s, a).bids[|s.bids|], s.reqs[a.rid];
               b.rid == a.rid && Some(b.user) == r.user && b.car == r.car && Some(b.amount) == r.amount && b.status == Pending
  {
    if |Step(s, a).bids| > |s.bids| {
      InsertsOne(s, a);
    }
    if a.Do? && a.move.Insert? && a.rid in s.reqs {
      var r := s.reqs[a.rid];
      if r.phase.PaymentSent? && r.user.Some? && r.amount.Some? && r.car in s.cars {
        AcceptsExactly(s, r);
        hide Accepts, MayBid, Tops, NoneAbove, AmountsOn;
      }
    }
  }

  lemma AcceptsExactly(s: State, r: Request)
    requires r.user.Some? && r.amount.Some? && r.car in s.cars
    ensures Accepts(s, r) <==>
            && r.amount.value > 0 && MayBid(s.cars[r.car], r.user.value, s.now)
            && Tops(r.amount.value, 0) && Tops(r.amount.value, s.cars[r.car].price)
            && Tops(r.amount.value, s.cars[r.car].currentBid)
            && forall b | b in s.bids && b.car == r.car && b.status == Paid :: Tops(r.amount.value, b.amount)
  {
    var row, amount := s.cars[r.car], r.amount.value;
    var high := Highest(s.bids, r.car, PaidOnly);
    TopsHighest(amount, s.bids, r.car, PaidOnly);
    hide Highest;
    TopsMax(amount, high, row.currentBid);
    TopsMax(amount, Max(high, row.currentBid), row.price);
    assert Tops(amount, Max(Max(high, row.currentBid), row.price))
        <==> amount >= Max(Max(high, row.currentBid), row.price) + MinIncrement(Max(Max(high, row.currentBid), row.price));
    hide Tops, Max;
  }

  // What a request finds on its way to the payment, each both ways.
  lemma ArrivalExactly(s: State, rid: Rid)
    requires rid in s.reqs && s.reqs[rid].phase == Received
    ensures var s', r := AcquireStep(s, rid), s.reqs[rid];
      var held := r.car in s.locks && s.locks[r.car].expiresAt > s.now;
      && (s'.reqs[rid].phase == Done(401) <==> r.user == None)
      && (s'.reqs[rid].phase == Done(400) <==> r.user != None && r.amount == None)
      && (s'.reqs[rid].phase == Done(409) <==> r.user != None && r.amount != None && held)
      && (s'.reqs[rid].phase == Locked(s.now) <==> r.user != None && r.amount != None && !held)
      && (s'.reqs[rid].phase == Locked(s.now) ==> s'.locks == s.locks[r.car := Lease(rid, s.now + 15000)])
      && (s'.reqs[rid].phase != Locked(s.now) ==> s'.locks == s.locks)
  {
  }

  lemma CarExactly(s: State, rid: Rid)
    requires rid in s.reqs && s.reqs[rid].phase.Locked? && s.reqs[rid].user.Some?
    ensures var r := s.reqs[rid];
      var next := ReadCarStep(s, rid).reqs[rid].phase;
      && (next == Releasing(404) <==> r.car !in s.cars)
      && (next == Releasing(400) <==> r.car in s.cars && !MayBid(s.cars[r.car], r.user.value, s.now))
      && (next.CarOk? <==> r.car in s.cars && MayBid(s.cars[r.car], r.user.value, s.now))
      && (next.CarOk? ==> next == CarOk(r.phase.at, s.cars[r.car]))
  {
  }

  lemma BidderExactly(s: State, rid: Rid, phoneOk: bool, depositHeld: bool)
    requires rid in s.reqs && s.reqs[rid].phase.CarOk? && s.reqs[rid].amount.Some?
    ensures var r := s.reqs[rid];
      var next := CheckBidderStep(s, rid, phoneOk, depositHeld).reqs[rid].phase;
      && (next == Releasing(400) <==> !phoneOk)
      && (next == Releasing(403) <==> phoneOk && !depositHeld && r.amount.value > 5000000)
      && (next == BidderOk(r.phase.at, r.phase.row) <==> phoneOk && (depositHeld || r.amount.value <= 5000000))
  {
  }

  // The price counts only while there is no bid: neither a current bid above 0 nor a bid looked at above 0.
  lemma PriceExactly(s: State, rid: Rid)
    requires rid in s.reqs && s.reqs[rid].phase.BidderOk? && s.reqs[rid].amount.Some?
    ensures var r := s.reqs[rid];
      var next, amount, row := ReadHighestStep(s, rid).reqs[rid].phase, r.amount.value, r.phase.row;
      var bidOn := row.currentBid > 0
                   || exists b :: b in s.bids && b.car == r.car && (s.scope == AllBids || b.status == Paid) && b.amount > 0;
      && (next.Priced? || next == Releasing(400))
      && (next.Priced? ==> next.at == r.phase.at)
      && (next.Priced? <==>
            if bidOn then
              && Tops(amount, 0) && Tops(amount, row.currentBid)
              && forall b | b in s.bids && b.car == r.car && (s.scope == AllBids || b.status == Paid) :: Tops(amount, b.amount)
            else Tops(amount, row.price))
  {
    var r := s.reqs[rid];
    var amount, row, high := r.amount.value, r.phase.row, Highest(s.bids, r.car, s.scope);
    TopsHighest(amount, s.bids, r.car, s.scope);
    TopsMax(amount, high, row.currentBid);
    HighestPositive(s.bids, r.car, s.scope);
    hide Highest, AmountsOn;
  }

  lemma {:induction false} HighestPositive(bids: seq<Bid>, car: CarId, scope: Scope)
    ensures Highest(bids, car, scope) > 0 <==>
            exists b :: b in bids && b.car == car && (scope == AllBids || b.status == Paid) && b.amount > 0
  {
    if bids != [] {
      var k := |bids| - 1;
      HighestPositive(bids[..k], car, scope);
      assert bids == bids[..k] + [bids[k]];
      assert forall b :: b in bids <==> b in bids[..k] || b == bids[k];
    }
  }

  // A request that throws inside the lock is released with 500; nothing else changes, so a bid stays.
  lemma ThrowsExactly(s: State, rid: Rid)
    requires rid in s.reqs && s.reqs[rid].phase.Critical()
    ensures ThrowStep(s, rid) == s.(reqs := s.reqs[rid := s.reqs[rid].(phase := Releasing(500))])
  {
  }

  // Released is what is held, and the answer stays.
  lemma ReleaseExactly(s: State, rid: Rid)
    requires rid in s.reqs && s.reqs[rid].phase.Releasing?
    ensures var s', r := ReleaseStep(s, rid), s.reqs[rid];
      && s'.reqs == s.reqs[rid := r.(phase := Done(r.phase.code))] && s'.bids == s.bids && s'.cars == s.cars
      && (forall c :: c in s'.locks <==> c in s.locks && !(c == r.car && s.locks[c].holder == rid))
      && (forall c | c in s'.locks :: s'.locks[c] == s.locks[c])
  {
  }

  // A confirmed payment makes a pending bid paid, and its bidder the leader of a running auction if it is
  // above the current bid; no payment moves anything else.
  lemma PaymentExactly(s: State, i: nat)
    requires i < |s.bids| && s.bids[i].car in s.cars
    ensures var s', b, row := Step(s, ConfirmPayment(i)), s.bids[i], s.cars[s.bids[i].car];
      && s'.reqs == s.reqs && s'.locks == s.locks && s'.now == s.now
      && s'.bids == (if b.status == Pending then s.bids[i := b.(status := Paid)] else s.bids)
      && s'.cars.Keys == s.cars.Keys && (forall c | c in s.cars && c != b.car :: s'.cars[c] == s.cars[c])
      && var raised := b.status == Pending && row.live && (row.auctionEnd == None || s.now < row.auctionEnd.value) && b.amount > row.currentBid;
         s'.cars[b.car] == if raised then row.(currentBid := b.amount, highestBidder := Some(b.user)) else row
  {
  }

  // What happens around the requests: a car's row is edited, and time passes.
  function Elapsed(actions: seq<Action>): nat
    decreases |actions|
  {
    if actions == [] then 0 else (if actions[0].Tick? then actions[0].ms else 0) + Elapsed(actions[1..])
  }

  lemma {:induction false} ClockAdvances(s: State, actions: seq<Action>)
    ensures Run(s, actions).now == s.now + Elapsed(actions)
    decreases |actions|
  {
    if actions != [] {
      StepClock(s, actions[0]);
      hide Step;
      ClockAdvances(Step(s, actions[0]), actions[1..]);
    }
  }

  lemma StepClock(s: State, a: Action)
    ensures Step(s, a).now == s.now + if a.Tick? then a.ms else 0
  {
    if a.Do? && a.rid in s.reqs {
      MoveTimely(s, a.rid, a.move);
      hide MoveStep;
    }
  }

  lemma EditsExactly(s: State, car: CarId, row: CarRow)
    ensures var s' := Step(s, EditCar(car, row));
      s' == s.(cars := s'.cars) && car in s'.cars && s'.cars[car] == row
      && forall c :: c != car ==> (c in s'.cars <==> c in s.cars) && (c in s.cars ==> s'.cars[c] == s.cars[c])
  {
  }

  // ---------- checked bidders, in every run ----------

  predicate CheckedIn(actions: seq<Action>, rid: Rid, amount: int) {
    Do(rid, CheckBidder(true, true)) in actions || (amount <= 5000000 && Do(rid, CheckBidder(true, false)) in actions)
  }

  predicate PastCheck(p: Phase) { p.BidderOk? || p.Priced? || p.PaymentSent? }

  ghost predicate AllChecked(s: State, actions: seq<Action>) {
    && (forall rid | rid in s.reqs && PastCheck(s.reqs[rid].phase) ::
          s.reqs[rid].amount.Some? && CheckedIn(actions, rid, s.reqs[rid].amount.value))
    && (forall b | b in s.bids :: CheckedIn(actions, b.rid, b.amount))
  }

  // A request gets past the check through it.
  lemma MovePasses(s: State, rid: Rid, m: Move)
    requires rid in s.reqs
    ensures var r, r' := s.reqs[rid], MoveStep(s, rid, m).reqs[rid];
      PastCheck(r'.phase) ==>
        || (PastCheck(r.phase) && r'.amount == r.amount)
        || (m.CheckBidder? && m.phoneOk && r'.amount.Some? && (m.depositHeld || r'.amount.value <= 5000000))
  {
    hide Highest, AmountsOn, Accepts, Open, Free, CurrentBid, MinIncrement, NoneAbove;
    MoveAnswers(s, rid, m);
  }

  lemma MoveChecked(s: State, rid: Rid, m: Move, actions: seq<Action>)
    requires AllChecked(s, actions) && rid in s.reqs
    ensures var r' := MoveStep(s, rid, m).reqs[rid];
      PastCheck(r'.phase) ==> r'.amount.Some? && CheckedIn(actions + [Do(rid, m)], rid, r'.amount.value)
  {
    MovePasses(s, rid, m);
    MoveAnswers(s, rid, m);
    hide MoveStep, CheckedIn, Highest;
    CheckedLonger(actions, Do(rid, m), rid);
    if m.CheckBidder? {
      JustChecked(actions, rid, m);
    }
  }

  lemma CheckedLonger(actions: seq<Action>, a: Action, rid: Rid)
    ensures forall amount :: CheckedIn(actions, rid, amount) ==> CheckedIn(actions + [a], rid, amount)
  {
  }

  lemma JustChecked(actions: seq<Action>, rid: Rid, m: Move)
    requires m.CheckBidder?
    ensures forall amount :: m.phoneOk && (m.depositHeld || amount <= 5000000) ==> CheckedIn(actions + [Do(rid, m)], rid, amount)
  {
  }

  lemma StepChecked(s: State, a: Action, actions: seq<Action>)
    requires AllChecked(s, actions)
    ensures AllChecked(Step(s, a), actions + [a])
  {
    hide MoveStep, Highest;
    var s' := Step(s, a);
    assert forall x | x in actions :: x in actions + [a];
    match a
    case Do(rid, m) =>
      if rid in s.reqs {
        MoveAnswers(s, rid, m);
        MoveChecked(s, rid, m, actions);
        if s'.bids != s.bids {
          InsertChecked(s, rid, m, actions);
        }
      }
    case ConfirmPayment(i) => SettledChecked(s, s', actions, a);
    case FailPayment(i) => SettledChecked(s, s', actions, a);
    case _ =>
  }

  lemma SettledChecked(s: State, s': State, actions: seq<Action>, a: Action)
    requires AllChecked(s, actions) && s'.reqs == s.reqs && |s'.bids| == |s.bids|
    requires forall i | 0 <= i < |s.bids| :: s'.bids[i].rid == s.bids[i].rid && s'.bids[i].amount == s.bids[i].amount
    ensures AllChecked(s', actions + [a])
  {
    forall b | b in s'.bids
      ensures CheckedIn(actions + [a], b.rid, b.amount)
    {
      var i :| 0 <= i < |s'.bids| && s'.bids[i] == b;
      assert s.bids[i] in s.bids;
    }
  }

  lemma InsertChecked(s: State, rid: Rid, m: Move, actions: seq<Action>)
    requires AllChecked(s, actions) && rid in s.reqs && MoveStep(s, rid, m).bids != s.bids
    ensures forall b | b in MoveStep(s, rid, m).bids :: CheckedIn(actions + [Do(rid, m)], b.rid, b.amount)
  {
    MoveAnswers(s, rid, m);
    var bids' := MoveStep(s, rid, m).bids;
    InsertsWhenPaid(s, rid, m);
    hide MoveStep;
    assert forall b | b in bids' :: b in s.bids || b == bids'[|s.bids|] by {
      assert bids' == s.bids + [bids'[|s.bids|]];
    }
  }

  lemma InsertsWhenPaid(s: State, rid: Rid, m: Move)
    requires rid in s.reqs && MoveStep(s, rid, m).bids != s.bids
    ensures s.reqs[rid].phase.PaymentSent?
  {
    hide Highest, AmountsOn, Accepts, Open, Free, CurrentBid, MinIncrement, NoneAbove;
  }

  lemma {:induction false} RunChecked(s0: State, actions: seq<Action>)
    requires Initial(s0)
    ensures AllChecked(Run(s0, actions), actions)
    decreases |actions|
  {
    if actions != [] {
      var k := |actions| - 1;
      assert actions == actions[..k] + [actions[k]];
      RunAppend(s0, actions[..k], [actions[k]]);
      RunOne(Run(s0, actions[..k]), actions[k]);
      RunChecked(s0, actions[..k]);
      StepChecked(Run(s0, actions[..k]), actions[k], actions[..k]);
    }
  }

  // In every run: behind every bid there is a check that the bidder has a phone, and above 5,000,000 that the
  // deposit is held.
  lemma BidsAreChecked(s0: State, actions: seq<Action>, b: Bid)
    requires Initial(s0) && b in Run(s0, actions).bids
    ensures Do(b.rid, CheckBidder(true, true)) in actions
            || (b.amount <= 5000000 && Do(b.rid, CheckBidder(true, false)) in actions)
  {
    RunChecked(s0, actions);
  }

  // ---------- two runs where amounts do not increase ----------

  const CAR: CarId := "car"
  const ROW := CarRow("dealer", None, true, None, 0, 0)
  function Start(scope: Scope): State { State(scope, 0, map[CAR := ROW], [], map[], map[]) }

  function Asking(rid: Rid): Request { Request(Some("bidder"), CAR, Some(1000), Received) }
  function Approach(rid: Rid): seq<Action> {
    [Arrive(rid, Some("bidder"), CAR, Some(1000)), Do(rid, Acquire), Do(rid, ReadCar),
     Do(rid, CheckBidder(true, false)), Do(rid, ReadHighest), Do(rid, Pay)]
  }
  // Only the passing of time can make a request late.
  lemma MoveTimely(s: State, rid: Rid, m: Move)
    requires rid in s.reqs
    ensures var s' := MoveStep(s, rid, m);
      && s'.now == s.now && rid in s'.reqs
      && (s'.reqs[rid].phase.Critical() ==>
            s'.reqs[rid].phase.at == s.now || (s.reqs[rid].phase.Critical() && s'.reqs[rid].phase.at == s.reqs[rid].phase.at))
  {
    hide Highest, AmountsOn, Accepts, Open, Free, CurrentBid;
  }

  lemma StepTimely(s: State, a: Action)
    requires Timely(s) && !a.Tick?
    ensures Timely(Step(s, a))
  {
    hide MoveStep;
    if a.Do? && a.rid in s.reqs {
      MoveForward(s, a.rid, a.move);
      MoveTimely(s, a.rid, a.move);
    }
  }

  lemma {:induction false} RunTimely(s: State, actions: seq<Action>)
    requires Timely(s) && forall a | a in actions :: !a.Tick?
    ensures TimelyRun(s, actions)
    decreases |actions|
  {
    hide Timely;
    if actions != [] {
      StepTimely(s, actions[0]);
      RunTimely(Step(s, actions[0]), actions[1..]);
    }
  }

  lemma RunTwo(s: State, a: Action, b: Action)
    ensures Run(s, [a, b]) == Step(Step(s, a), b)
  {
    assert [a, b][1..] == [b] && [b][1..] == [];
    assert Run(Step(s, a), [b]) == Step(Step(s, a), b);
  }

  // Up to the payment, for a request that reads no bid above 0.
  lemma Approaches(s: State, rid: Rid)
    requires rid !in s.reqs && Free(s, CAR) && CAR in s.cars && s.cars[CAR] == ROW && Highest(s.bids, CAR, s.scope) == 0
    ensures Run(s, Approach(rid))
         == s.(reqs := s.reqs[rid := Asking(rid).(phase := PaymentSent(s.now, 0, AmountsOn(s.bids, CAR)))],
               locks := s.locks[CAR := Lease(rid, s.now + TTL)])
  {
    hide Run, AmountsOn, Highest, Step, Free;
    var a := Approach(rid);
    LocksCar(s, rid);
    var s2 := Run(s, [a[0], a[1]]);
    RunTwo(s, a[0], a[1]);
    PassesChecks(s2, rid);
    var s4 := Run(s2, [a[2], a[3]]);
    RunTwo(s2, a[2], a[3]);
    Pays(s4, rid);
    RunTwo(s4, a[4], a[5]);
    assert [a[0], a[1]] + [a[2], a[3]] + [a[4], a[5]] == a;
    RunAppend(s, [a[0], a[1]], [a[2], a[3]]);
    RunAppend(s, [a[0], a[1]] + [a[2], a[3]], [a[4], a[5]]);
  }

  lemma LocksCar(s: State, rid: Rid)
    requires rid !in s.reqs && Free(s, CAR)
    ensures Step(Step(s, Arrive(rid, Some("bidder"), CAR, Some(1000))), Do(rid, Acquire))
         == s.(reqs := s.reqs[rid := Asking(rid).(phase := Locked(s.now))], locks := s.locks[CAR := Lease(rid, s.now + TTL)])
  {
  }

  lemma PassesChecks(s: State, rid: Rid)
    requires rid in s.reqs && s.reqs[rid] == Asking(rid).(phase := Locked(s.now)) && CAR in s.cars && s.cars[CAR] == ROW
    ensures Step(Step(s, Do(rid, ReadCar)), Do(rid, CheckBidder(true, false)))
         == s.(reqs := s.reqs[rid := Asking(rid).(phase := BidderOk(s.now, ROW))])
  {
  }

  lemma Pays(s: State, rid: Rid)
    requires rid in s.reqs && s.reqs[rid] == Asking(rid).(phase := BidderOk(s.now, ROW)) && Highest(s.bids, CAR, s.scope) == 0
    ensures Step(Step(s, Do(rid, ReadHighest)), Do(rid, Pay))
         == s.(reqs := s.reqs[rid := Asking(rid).(phase := PaymentSent(s.now, 0, AmountsOn(s.bids, CAR)))])
  {
    hide Highest, AmountsOn;
  }

  lemma Finishes(s: State, rid: Rid, at: int, seen: seq<int>)
    requires rid in s.reqs && s.reqs[rid] == Asking(rid).(phase := PaymentSent(at, 0, seen))
    requires CAR in s.cars && s.cars[CAR] == ROW && Highest(s.bids, CAR, PaidOnly) == 0
    ensures Step(s, Do(rid, Insert(true)))
         == s.(reqs := s.reqs[rid := Asking(rid).(phase := Releasing(200))],
               bids := s.bids + [Bid(rid, CAR, "bidder", 1000, Pending, 0, NoneAbove(seen, 0))])
  {
    hide Highest;
  }

  const FIRST := Bid(1, CAR, "bidder", 1000, Pending, 0, true)

  // A first request has inserted its bid and let go of the car.
  predicate FirstPending(s: State) {
    2 !in s.reqs && Free(s, CAR) && s.cars == map[CAR := ROW] && s.scope == PaidOnly && s.now == 0 && s.bids == [FIRST]
  }

  lemma FirstPends()
    ensures FirstPending(Run(Start(PaidOnly), Approach(1) + [Do(1, Insert(true)), Do(1, Release)]))
  {
    hide Run, AmountsOn, FirstPending, Highest, Accepts, Open;
    var s0, last := Start(PaidOnly), [Do(1, Insert(true)), Do(1, Release)];
    var s1 := Run(s0, Approach(1));
    NoAmounts();
    Approaches(s0, 1);
    Finishes(s1, 1, 0, []);
    RunTwo(s1, last[0], last[1]);
    RunAppend(s0, Approach(1), last);
    Releases(Step(s1, last[0]));
  }

  lemma Releases(s: State)
    requires 1 in s.reqs && s.reqs[1] == Asking(1).(phase := Releasing(200)) && CAR in s.locks && s.locks[CAR].holder == 1
    requires 2 !in s.reqs && s.cars == map[CAR := ROW] && s.scope == PaidOnly && s.now == 0 && s.bids == [FIRST]
    ensures FirstPending(Step(s, Do(1, Release)))
  {
  }

  lemma SecondTies(s: State)
    requires FirstPending(s)
    ensures Run(s, Approach(2) + [Do(2, Insert(true))]).bids == [FIRST, Bid(2, CAR, "bidder", 1000, Pending, 0, false)]
  {
    hide Run, AmountsOn, Step, Highest;
    PendingOnly(FIRST);
    Approaches(s, 2);
    var s' := Run(s, Approach(2));
    Finishes(s', 2, 0, [1000]);
    assert 1000 in [1000] && !NoneAbove([1000], 0);
    RunOne(s', Do(2, Insert(true)));
    RunAppend(s, Approach(2), [Do(2, Insert(true))]);
  }

  // With the source's query, which looks at paid bids only, two requests in a row may insert the same amount.
  lemma PendingBidsTie()
    ensures var actions := Approach(1) + [Do(1, Insert(true)), Do(1, Release)] + Approach(2) + [Do(2, Insert(true))];
      && TimelyRun(Start(PaidOnly), actions)
      && var bids := Run(Start(PaidOnly), actions).bids;
         |bids| == 2 && bids[0].car == bids[1].car && bids[0].amount == bids[1].amount == 1000 && !bids[1].settled
  {
    hide Run, TimelyRun, FirstPending;
    var first, second := Approach(1) + [Do(1, Insert(true)), Do(1, Release)], Approach(2) + [Do(2, Insert(true))];
    RunTimely(Start(PaidOnly), first + second);
    FirstPends();
    SecondTies(Run(Start(PaidOnly), first));
    RunAppend(Start(PaidOnly), first, second);
    assert first + second == Approach(1) + [Do(1, Insert(true)), Do(1, Release)] + Approach(2) + [Do(2, Insert(true))];
  }

  // Even if the query looked at all bids: a request that outlives its lease inserts below a later bid.
  lemma LateRequestTies()
    ensures var actions := Approach(1) + [Tick(TTL)] + Approach(2) + [Do(2, Insert(true)), Do(1, Insert(true))];
      var bids := Run(Start(AllBids), actions).bids;
      |bids| == 2 && bids[0].car == bids[1].car && bids[0].amount == bids[1].amount == 1000
  {
    hide Run, AmountsOn;
    var s0 := Start(AllBids);
    var s1 := Run(s0, Approach(1));
    Approaches(s0, 1);
    NoAmounts();
    var s2 := Step(s1, Tick(TTL));
    RunOne(s1, Tick(TTL));
    Approaches(s2, 2);
    var s3 := Run(s2, Approach(2));
    Finishes(s3, 2, TTL, []);
    var s4 := Step(s3, Do(2, Insert(true)));
    PendingOnly(s4.bids[0]);
    Finishes(s4, 1, 0, []);
    RunTwo(s3, Do(2, Insert(true)), Do(1, Insert(true)));
    RunAppend(s0, Approach(1), [Tick(TTL)]);
    RunAppend(s0, Approach(1) + [Tick(TTL)], Approach(2));
    RunAppend(s0, Approach(1) + [Tick(TTL)] + Approach(2), [Do(2, Insert(true)), Do(1, Insert(true))]);
  }

  lemma RunOne(s: State, a: Action)
    ensures Run(s, [a]) == Step(s, a)
  {
    assert [a][1..] == [];
  }

  lemma NoAmounts()
    ensures AmountsOn([], CAR) == [] && Highest([], CAR, PaidOnly) == Highest([], CAR, AllBids) == 0
  {
  }

  lemma PendingOnly(b: Bid)
    requires b.car == CAR && b.status == Pending
    ensures AmountsOn([b], CAR) == [b.amount] && Highest([b], CAR, PaidOnly) == 0
  {
    assert [b][..0] == [];
  }
}

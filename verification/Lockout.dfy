/**
 The account lockout of `login` in backend/controllers/authController.js: what a run of login calls
 does to the stored attempt counter and lock, and how many passwords can be tried against an account.
 Calls are atomic and their times do not go back.

 What login sees of the stored row depends on the data layer, so it is a parameter.  At this commit the
 projection "+password +tokenVersion" fetches the columns it names and no others (select in
 backend/models/_base.js, normalizeSelect in backend/utils/fieldMap.js): the reading is Projected.  With
 all columns fetched it would be AsText, since a timestamp arrives as text, and text compared with a
 date is never greater.  AsTime is the reading that the handler is written for.
 */
module Lockout {
  import opened Wrappers

  const MAX_ATTEMPTS := 5
  const LOCK_MS := 15 * 60 * 1000

  datatype Reading = Projected | AsText | AsTime

  datatype Account = Account(loginAttempts: nat, lockUntil: Option<int>)

  // Whether the gates behind the password check (deactivation, e-mail verification) let the user in.
  datatype Call = Call(time: int, passwordOk: bool, admitted: bool)

  datatype Outcome = Locked429 | WrongPassword401 | NowLocked429 | Refused403 | LoggedIn

  // userAuth.loginAttempts || 0
  function SeenAttempts(r: Reading, a: Account): nat { if r == Projected then 0 else a.loginAttempts }

  // userAuth.lockUntil && userAuth.lockUntil > new Date()
  predicate SeenLocked(r: Reading, a: Account, now: int) {
    r == AsTime && a.lockUntil.Some? && a.lockUntil.value > now
  }

  // The lock is tested before the password; the reset after a right password is saved only if the
  // login goes through, and concerns only columns that were read.
  function LoginStep(r: Reading, a: Account, banned: bool, c: Call): (Account, Outcome) {
    if SeenLocked(r, a, c.time) then (a, Locked429)
    else if !c.passwordOk then
      if banned then (a, WrongPassword401)
      else
        var attempts := SeenAttempts(r, a) + 1;
        if attempts >= MAX_ATTEMPTS then (Account(attempts, Some(c.time + LOCK_MS)), NowLocked429)
        else (a.(loginAttempts := attempts), WrongPassword401)
    else if banned || !c.admitted then (a, Refused403)
    else (if r == Projected then a else Account(0, None), LoggedIn)
  }

  class UserAuth {
    const reading: Reading
    var loginAttempts: nat
    var lockUntil: Option<int>

    function Stored(): Account
      reads this
    {
      Account(loginAttempts, lockUntil)
    }

    constructor (reading: Reading)
      ensures this.reading == reading && Stored() == Account(0, None)
    {
      this.reading, loginAttempts, lockUntil := reading, 0, None;
    }

    method Login(banned: bool, c: Call) returns (outcome: Outcome)
      modifies this
      ensures (Stored(), outcome) == LoginStep(reading, old(Stored()), banned, c)
    {
      // the document that findOne returns; a field that was not fetched is absent
      var attemptsRead := if reading == Projected then None else Some(loginAttempts);
      var lockRead := if reading == Projected then None else lockUntil;
      if lockRead.Some? && reading == AsTime && lockRead.value > c.time {
        return Locked429;
      }
      if !c.passwordOk {
        if !banned {
          var attempts := (if attemptsRead.Some? then attemptsRead.value else 0) + 1;
          if attempts >= 5 {
            loginAttempts := attempts;
            lockUntil := Some(c.time + 15 * 60 * 1000);
            return NowLocked429;
          }
          loginAttempts := attempts;
        }
        return WrongPassword401;
      }
      // reset in memory only; the gates below may return without saving it
      var reset := (attemptsRead.Some? && attemptsRead.value > 0) || lockRead.Some?;
      if banned || !c.admitted {
        return Refused403;
      }
      if reset {
        loginAttempts, lockUntil := 0, None;
      }
      outcome := LoggedIn;
    }
  }

  // ---------- runs ----------

  function After(r: Reading, a: Account, banned: bool, calls: seq<Call>): Account {
    if calls == [] then a
    else LoginStep(r, After(r, a, banned, calls[..|calls| - 1]), banned, calls[|calls| - 1]).0
  }

  function OutcomeAt(r: Reading, a: Account, banned: bool, calls: seq<Call>, i: nat): Outcome
    requires i < |calls|
  {
    LoginStep(r, After(r, a, banned, calls[..i]), banned, calls[i]).1
  }

  // A wrong password was actually compared, not turned away by the lock.
  predicate WrongCheck(o: Outcome) { o == WrongPassword401 || o == NowLocked429 }

  // How many wrong passwords were compared at times t .. t + span.
  function WrongChecks(r: Reading, a: Account, banned: bool, calls: seq<Call>, t: int, span: nat): nat {
    if calls == [] then 0
    else
      var k := |calls| - 1;
      WrongChecks(r, a, banned, calls[..k], t, span)
      + (if t <= calls[k].time <= t + span && WrongCheck(OutcomeAt(r, a, banned, calls, k)) then 1 else 0)
  }

  predicate ClockRuns(calls: seq<Call>) {
    forall i, j | 0 <= i < j < |calls| :: calls[i].time <= calls[j].time
  }

  predicate NobodyLogsIn(r: Reading, a: Account, banned: bool, calls: seq<Call>) {
    forall i | 0 <= i < |calls| :: OutcomeAt(r, a, banned, calls, i) != LoggedIn
  }

  // ---------- the bound ----------

  // n wrong passwords have been compared since t.
  predicate Paid(a: Account, n: nat, t: int) {
    if a.loginAttempts < MAX_ATTEMPTS then n <= a.loginAttempts
    else
      n > 0 ==> a.lockUntil.Some? && t + LOCK_MS <= a.lockUntil.value
                && n <= MAX_ATTEMPTS + (a.lockUntil.value - LOCK_MS - t) / LOCK_MS
  }

  lemma PaidStep(a: Account, c: Call, n: nat, t: int)
    requires Paid(a, n, t) && (n > 0 ==> t <= c.time)
    ensures var (a', o) := LoginStep(AsTime, a, false, c);
      o != LoggedIn ==> Paid(a', n + (if t <= c.time && WrongCheck(o) then 1 else 0), t)
  {
    if a.loginAttempts >= MAX_ATTEMPTS && n > 0 && t <= c.time && a.lockUntil.value <= c.time {
      var p, q := a.lockUntil.value - LOCK_MS - t, c.time - t;
      assert p + LOCK_MS <= q && p / LOCK_MS + 1 <= q / LOCK_MS;
    }
  }

  lemma PaidFewer(a: Account, n: nat, m: nat, t: int)
    requires Paid(a, n, t) && m <= n
    ensures Paid(a, m, t)
  {
  }

  lemma AppendCall(r: Reading, a: Account, banned: bool, calls: seq<Call>, c: Call, t: int, span: nat)
    ensures var (a', o) := LoginStep(r, After(r, a, banned, calls), banned, c);
      && After(r, a, banned, calls + [c]) == a'
      && OutcomeAt(r, a, banned, calls + [c], |calls|) == o
      && WrongChecks(r, a, banned, calls + [c], t, span)
         == WrongChecks(r, a, banned, calls, t, span) + (if t <= c.time <= t + span && WrongCheck(o) then 1 else 0)
      && (NobodyLogsIn(r, a, banned, calls + [c]) <==> NobodyLogsIn(r, a, banned, calls) && o != LoggedIn)
  {
    var all := calls + [c];
    assert all[..|calls|] == calls;
    forall i | 0 <= i < |calls|
      ensures OutcomeAt(r, a, banned, all, i) == OutcomeAt(r, a, banned, calls, i)
    {
      assert all[..i] == calls[..i];
    }
    if NobodyLogsIn(r, a, banned, all) {
      forall i | 0 <= i < |calls| ensures OutcomeAt(r, a, banned, calls, i) != LoggedIn {
        assert OutcomeAt(r, a, banned, all, i) != LoggedIn;
      }
    }
  }

  lemma {:induction false} CheckedLate(r: Reading, a: Account, banned: bool, calls: seq<Call>, t: int, span: nat)
    requires WrongChecks(r, a, banned, calls, t, span) > 0
    ensures exists i :: 0 <= i < |calls| && t <= calls[i].time
  {
    var k := |calls| - 1;
    if calls[k].time < t {
      CheckedLate(r, a, banned, calls[..k], t, span);
      var i :| 0 <= i < k && t <= calls[..k][i].time;
      assert t <= calls[i].time;
    }
  }

  lemma {:induction false} PaidKept(a: Account, calls: seq<Call>, t: int, span: nat)
    requires NobodyLogsIn(AsTime, a, false, calls) && ClockRuns(calls)
    ensures Paid(After(AsTime, a, false, calls), WrongChecks(AsTime, a, false, calls, t, span), t)
  {
    hide After, WrongChecks, LoginStep, NobodyLogsIn, Paid;
    if calls == [] {
      NoneYet(a, t, span);
    } else {
      var before, c := calls[..|calls| - 1], calls[|calls| - 1];
      assert calls == before + [c];
      AppendCall(AsTime, a, false, before, c, t, span);
      PaidKept(a, before, t, span);
      var b, n := After(AsTime, a, false, before), WrongChecks(AsTime, a, false, before, t, span);
      if n > 0 {
        CheckedLate(AsTime, a, false, before, t, span);
      }
      PaidStep(b, c, n, t);
      var (b', o) := LoginStep(AsTime, b, false, c);
      PaidFewer(b', n + (if t <= c.time && WrongCheck(o) then 1 else 0), WrongChecks(AsTime, a, false, calls, t, span), t);
    }
  }

  lemma NoneYet(a: Account, t: int, span: nat)
    ensures Paid(After(AsTime, a, false, []), WrongChecks(AsTime, a, false, [], t, span), t)
  {
  }

  // The last comparison falls into the span, so the lock it set began in it.
  lemma {:induction false} LockedLately(a: Account, calls: seq<Call>, t: int, span: nat)
    requires NobodyLogsIn(AsTime, a, false, calls) && ClockRuns(calls)
    ensures WrongChecks(AsTime, a, false, calls, t, span) <= MAX_ATTEMPTS + span / LOCK_MS
  {
    if calls != [] {
      var before, c := calls[..|calls| - 1], calls[|calls| - 1];
      assert calls == before + [c];
      AppendCall(AsTime, a, false, before, c, t, span);
      hide After, WrongChecks, NobodyLogsIn, OutcomeAt;
      var o := LoginStep(AsTime, After(AsTime, a, false, before), false, c).1;
      if t <= c.time <= t + span && WrongCheck(o) {
        PaidKept(a, calls, t, span);
        if o == NowLocked429 {
          assert (c.time - t) / LOCK_MS <= span / LOCK_MS;
        }
      } else {
        LockedLately(a, before, t, span);
      }
    }
  }

  // Given counter and lock as they are stored, whatever they are to begin with, and however calls to an
  // unbanned account are timed: as long as nobody logs in, any span of time sees at most 5 wrong passwords compared and one more for
  // every full 15 minutes.
  lemma GuessesBounded(a: Account, calls: seq<Call>, t: int, span: nat)
    requires NobodyLogsIn(AsTime, a, false, calls) && ClockRuns(calls)
    ensures WrongChecks(AsTime, a, false, calls, t, span) <= 5 + span / (15 * 60 * 1000)
  {
    LockedLately(a, calls, t, span);
  }

  // ---------- the bound is attained, and its conditions are needed ----------

  function Guess(time: int): Call { Call(time, false, true) }

  // Five guesses at once, then one whenever the lock has just run out.
  function Guesses(n: nat): (r: seq<Call>)
    ensures |r| == n
  {
    if n == 0 then [] else Guesses(n - 1) + [Guess(LastGuess(n))]
  }

  function LastGuess(n: nat): int { if n <= MAX_ATTEMPTS then 0 else (n - MAX_ATTEMPTS) * LOCK_MS }

  // The account after n guesses.
  function GuessedAccount(n: nat): Account {
    Account(n, if n < MAX_ATTEMPTS then None else Some((n - MAX_ATTEMPTS + 1) * LOCK_MS))
  }

  lemma {:induction false} GuessesInOrder(n: nat)
    ensures ClockRuns(Guesses(n)) && forall c | c in Guesses(n) :: c.time <= LastGuess(n)
  {
    if n > 0 {
      GuessesInOrder(n - 1);
    }
  }

  ghost predicate AllChecked(n: nat, span: nat) {
    var calls := Guesses(n);
    && WrongChecks(AsTime, Account(0, None), false, calls, 0, span) == n
    && NobodyLogsIn(AsTime, Account(0, None), false, calls)
    && After(AsTime, Account(0, None), false, calls) == GuessedAccount(n)
  }

  lemma NextGuessChecked(n: nat, span: nat)
    requires 0 < n <= MAX_ATTEMPTS + span / LOCK_MS && AllChecked(n - 1, span)
    ensures AllChecked(n, span)
  {
    hide After, WrongChecks, NobodyLogsIn, OutcomeAt, LoginStep, LastGuess, GuessedAccount;
    AppendCall(AsTime, Account(0, None), false, Guesses(n - 1), Guess(LastGuess(n)), 0, span);
    OneGuess(n, span);
  }

  lemma {:induction false} GuessesAllChecked(n: nat, span: nat)
    requires n <= MAX_ATTEMPTS + span / LOCK_MS
    ensures AllChecked(n, span)
  {
    if n > 0 {
      hide AllChecked;
      GuessesAllChecked(n - 1, span);
      NextGuessChecked(n, span);
    }
  }

  // The n-th guess comes just as the lock of the one before it runs out.
  lemma OneGuess(n: nat, span: nat)
    requires 0 < n <= MAX_ATTEMPTS + span / LOCK_MS
    ensures 0 <= LastGuess(n) <= span
    ensures var a := GuessedAccount(n - 1);
      var (a', o) := LoginStep(AsTime, a, false, Guess(LastGuess(n)));
      && WrongCheck(o)
      && a' == GuessedAccount(n)
  {
    if n > MAX_ATTEMPTS {
      assert LOCK_MS * (span / LOCK_MS) <= span;
    }
  }

  lemma GuessesAttained(span: nat)
    ensures exists calls :: ClockRuns(calls) && NobodyLogsIn(AsTime, Account(0, None), false, calls)
                            && WrongChecks(AsTime, Account(0, None), false, calls, 0, span) == MAX_ATTEMPTS + span / LOCK_MS
  {
    GuessesAllChecked(MAX_ATTEMPTS + span / LOCK_MS, span);
    GuessesInOrder(MAX_ATTEMPTS + span / LOCK_MS);
  }

  // A banned account is never locked: every wrong password sent to it is compared.
  lemma {:induction false} BannedNeverLocks(r: Reading, calls: seq<Call>, i: nat)
    requires i < |calls| && !calls[i].passwordOk
    ensures After(r, Account(0, None), true, calls[..i]) == Account(0, None)
    ensures WrongCheck(OutcomeAt(r, Account(0, None), true, calls, i))
  {
    BannedUntouched(r, calls[..i]);
  }

  lemma {:induction false} BannedUntouched(r: Reading, calls: seq<Call>)
    ensures After(r, Account(0, None), true, calls) == Account(0, None)
  {
    if calls != [] {
      BannedUntouched(r, calls[..|calls| - 1]);
    }
  }

  // ---------- what login reads decides ----------

  // Unless counter and lock are read, and the lock as a time, every wrong password of every run is
  // compared, whatever is stored.
  lemma EveryGuessCompared(r: Reading, a: Account, banned: bool, calls: seq<Call>, i: nat)
    requires r != AsTime && i < |calls| && !calls[i].passwordOk
    ensures WrongCheck(OutcomeAt(r, a, banned, calls, i))
  {
  }

  // With the source's projection the counter never gets beyond 1, no lock is ever set, and the answer to a
  // wrong password is always 401.
  lemma {:induction false} NeverLocked(a: Account, banned: bool, calls: seq<Call>)
    ensures After(Projected, a, banned, calls)
         == if !banned && exists i :: 0 <= i < |calls| && !calls[i].passwordOk then a.(loginAttempts := 1) else a
    ensures forall i | 0 <= i < |calls| && !calls[i].passwordOk ::
              OutcomeAt(Projected, a, banned, calls, i) == WrongPassword401
  {
    if calls != [] {
      var k := |calls| - 1;
      NeverLocked(a, banned, calls[..k]);
      if i :| 0 <= i < k && !calls[..k][i].passwordOk {
        assert !calls[i].passwordOk;
      }
      forall i | 0 <= i < |calls| && !calls[i].passwordOk
        ensures OutcomeAt(Projected, a, banned, calls, i) == WrongPassword401
      {
        if i < k {
          assert calls[..k][..i] == calls[..i] && calls[..k][i] == calls[i];
          assert OutcomeAt(Projected, a, banned, calls[..k], i) == WrongPassword401;
        }
      }
    }
  }

  function Burst(n: nat): (calls: seq<Call>)
    ensures |calls| == n && forall i | 0 <= i < n :: calls[i] == Guess(0)
  {
    if n == 0 then [] else Burst(n - 1) + [Guess(0)]
  }

  lemma BurstInOrder(n: nat)
    ensures ClockRuns(Burst(n))
  {
    hide Burst;
  }

  lemma NoGuess(r: Reading, a: Account)
    ensures WrongChecks(r, a, false, Burst(0), 0, 0) == 0 && NobodyLogsIn(r, a, false, Burst(0))
  {
  }

  lemma GuessCompared(r: Reading, a: Account)
    requires r != AsTime
    ensures WrongCheck(LoginStep(r, a, false, Guess(0)).1)
  {
  }

  // Any number of them, at a single instant.
  lemma {:induction false} BurstCompared(r: Reading, a: Account, n: nat)
    requires r != AsTime
    ensures WrongChecks(r, a, false, Burst(n), 0, 0) == n && NobodyLogsIn(r, a, false, Burst(n))
  {
    hide After, WrongChecks, NobodyLogsIn, OutcomeAt, LoginStep;
    if n == 0 {
      NoGuess(r, a);
    } else {
      BurstCompared(r, a, n - 1);
      AppendCall(r, a, false, Burst(n - 1), Guess(0), 0, 0);
      GuessCompared(r, After(r, a, false, Burst(n - 1)));
    }
  }

  ghost predicate Bounded(r: Reading) {
    forall a: Account, calls: seq<Call>, t: int, span: nat | NobodyLogsIn(r, a, false, calls) && ClockRuns(calls) ::
      WrongChecks(r, a, false, calls, t, span) <= 5 + span / (15 * 60 * 1000)
  }

  // So the bound holds of all runs if and only if login reads the counter, and the lock as a time.
  lemma BoundNeedsReading(r: Reading)
    ensures Bounded(r) <==> r == AsTime
  {
    if r == AsTime {
      forall a: Account, calls: seq<Call>, t: int, span: nat | NobodyLogsIn(r, a, false, calls) && ClockRuns(calls)
        ensures WrongChecks(r, a, false, calls, t, span) <= 5 + span / (15 * 60 * 1000)
      {
        GuessesBounded(a, calls, t, span);
      }
    } else {
      hide Burst, WrongChecks, NobodyLogsIn;
      BurstCompared(r, Account(0, None), 6);
      BurstInOrder(6);
      assert WrongChecks(r, Account(0, None), false, Burst(6), 0, 0) > 5 + 0 / (15 * 60 * 1000);
    }
  }

  // ---------- what each call answers ----------

  // Which answer is given when, and what is stored then: at the fifth wrong password in a row that is
  // counted, a lock for a quarter of an hour.
  lemma AnswersExactly(r: Reading, a: Account, banned: bool, c: Call)
    ensures var (a', o) := LoginStep(r, a, banned, c);
      var locked := r == AsTime && a.lockUntil.Some? && c.time < a.lockUntil.value;
      var count := if r == Projected then 1 else a.loginAttempts + 1;
      && (o == Locked429 <==> locked)
      && (o == WrongPassword401 <==> !locked && !c.passwordOk && (banned || count < 5))
      && (o == NowLocked429 <==> !locked && !c.passwordOk && !banned && count >= 5)
      && (o == Refused403 <==> !locked && c.passwordOk && (banned || !c.admitted))
      && (o == LoggedIn <==> !locked && c.passwordOk && !banned && c.admitted)
      && (locked || banned ==> a' == a) && (c.passwordOk && !c.admitted ==> a' == a)
      && (!locked && !banned && !c.passwordOk ==>
            && a'.loginAttempts == count
            && a'.lockUntil == if count >= 5 then Some(c.time + 900000) else a.lockUntil)
      && (o == LoggedIn ==> a' == if r == Projected then a else Account(0, None))
  {
  }

  lemma {:induction false} LockStays(r: Reading, a: Account, banned: bool, calls: seq<Call>)
    requires r == AsTime && a.lockUntil.Some?
    requires forall i | 0 <= i < |calls| :: calls[i].time < a.lockUntil.value
    ensures After(r, a, banned, calls) == a
  {
    if calls != [] {
      LockStays(r, a, banned, calls[..|calls| - 1]);
    }
  }

  // Once an account is locked, where the lock is read as a time, every call in the quarter of an hour that
  // follows is turned away, right password or wrong; and the first call behind it is not.
  lemma LockLasts(a: Account, banned: bool, c: Call, calls: seq<Call>)
    requires LoginStep(AsTime, a, banned, c).1 == NowLocked429
    ensures var locked := LoginStep(AsTime, a, banned, c).0;
      forall i | 0 <= i < |calls| && (forall j | 0 <= j < i :: calls[j].time < c.time + 900000) ::
        OutcomeAt(AsTime, locked, banned, calls, i) == Locked429 <==> calls[i].time < c.time + 900000
  {
    var locked := LoginStep(AsTime, a, banned, c).0;
    forall i | 0 <= i < |calls| && (forall j | 0 <= j < i :: calls[j].time < c.time + 900000)
      ensures OutcomeAt(AsTime, locked, banned, calls, i) == Locked429 <==> calls[i].time < c.time + 900000
    {
      LockStays(AsTime, locked, banned, calls[..i]);
    }
  }
}

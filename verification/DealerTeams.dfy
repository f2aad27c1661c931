/**
 Dealer teams in backend/controllers/dealerPlatformController.js: invite, update and accept as atomic
 handlers over one table.  Invitation tokens are fresh; the table stores their hash, which stands for
 the token itself.  E-mail addresses of users do not change.
 */
module DealerTeams {
  import opened Wrappers
  import opened Text

  type User = string
  type Token = nat

  datatype Status = Invited | Active | Suspended | Removed
  datatype Role = Manager | SalesAgent | LotAgent | FinanceOfficer | Viewer

  datatype Row = Row(dealer: User, email: string, role: Role, status: Status, member: Option<User>,
                     tokenHash: Option<Token>, expiresAt: Option<int>)

  // A row's id is its place; issued counts the tokens made so far; accepted lists the tokens that
  // acceptTeamInvite took, for the record.
  datatype State = State(rows: seq<Row>, issued: nat, accepted: seq<Token>)

  datatype Reply = Invitation(token: Token) | Ok | BadRequest400 | Conflict409 | NotFound404 | Gone410 | Forbidden403

  // An absent role, status or permissions; Unknown for a value outside the lists.
  datatype Change<T> = Absent | Unknown | To(value: T)

  datatype Action =
    | Invite(dealer: User, rawEmail: string, role: Change<Role>, now: int)
    | Update(dealer: User, id: nat, newRole: Change<Role>, newStatus: Change<Status>, permissions: Change<bool>)
    | Accept(user: User, token: Token, now: int)

  const WEEK := 7 * 86400000

  // /^[^@\s]+@[^@\s]+\.[^@\s]+$/
  predicate ValidEmail(s: string) {
    exists i, j | 0 < i < j < |s| - 1 :: i + 1 < j && s[i] == '@' && s[j] == '.'
      && forall k | 0 <= k < |s| && k != i :: s[k] != '@' && !IsBlank(s[k])
  }

  function FindRow(rows: seq<Row>, dealer: User, email: string): (r: Option<nat>)
    ensures r.Some? ==> r.value < |rows| && rows[r.value].dealer == dealer && rows[r.value].email == email
    ensures r.None? ==> forall i | 0 <= i < |rows| :: !(rows[i].dealer == dealer && rows[i].email == email)
  {
    if rows == [] then None
    else
      var k := |rows| - 1;
      var r := FindRow(rows[..k], dealer, email);
      if r.Some? then r else if rows[k].dealer == dealer && rows[k].email == email then Some(k) else None
  }

  function FindInvite(rows: seq<Row>, token: Token): (r: Option<nat>)
    ensures r.Some? ==> r.value < |rows| && rows[r.value].tokenHash == Some(token) && rows[r.value].status == Invited
    ensures r.None? ==> forall i | 0 <= i < |rows| :: !(rows[i].tokenHash == Some(token) && rows[i].status == Invited)
  {
    if rows == [] then None
    else
      var k := |rows| - 1;
      var r := FindInvite(rows[..k], token);
      if r.Some? then r else if rows[k].tokenHash == Some(token) && rows[k].status == Invited then Some(k) else None
  }

  predicate ActiveIn(rows: seq<Row>, dealer: User, user: User) {
    exists i | 0 <= i < |rows| :: rows[i].dealer == dealer && rows[i].member == Some(user) && rows[i].status == Active
  }

  // emailOf gives each user's address as stored.
  function Step(s: State, emailOf: User -> string, a: Action): (State, Reply) {
    match a
    case Invite(dealer, rawEmail, role, now) =>
      var email := Normal(rawEmail);
      if !ValidEmail(email) || role.Unknown? then (s, BadRequest400)
      else
        var existing := FindRow(s.rows, dealer, email);
        if existing.Some? && s.rows[existing.value].status != Removed then (s, Conflict409)
        else
          var row := Row(dealer, email, if role.To? then role.value else SalesAgent, Invited, None, Some(s.issued), Some(now + WEEK));
          var rows := if existing.Some? then s.rows[existing.value := row] else s.rows + [row];
          (State(rows, s.issued + 1, s.accepted), Invitation(s.issued))
    case Update(dealer, id, newRole, newStatus, permissions) =>
      if !(id < |s.rows| && s.rows[id].dealer == dealer) then (s, NotFound404)
      else if newRole.Unknown? || newStatus.Unknown? || permissions.Unknown? then (s, BadRequest400)
      else if newRole.Absent? && newStatus.Absent? && permissions.Absent? then (s, BadRequest400)
      else
        var row := s.rows[id];
        var row' := row.(role := if newRole.To? then newRole.value else row.role,
                         status := if newStatus.To? then newStatus.value else row.status);
        (s.(rows := s.rows[id := row']), Ok)
    case Accept(user, token, now) =>
      match FindInvite(s.rows, token)
      case None => (s, NotFound404)
      case Some(i) =>
        var row := s.rows[i];
        if row.expiresAt.Some? && row.expiresAt.value <= now then (s, Gone410)
        else if Normal(emailOf(user)) != Normal(row.email) then (s, Forbidden403)
        else if ActiveIn(s.rows, row.dealer, user) then (s, Conflict409)
        else
          var row' := row.(member := Some(user), status := Active, tokenHash := None, expiresAt := None);
          (State(s.rows[i := row'], s.issued, s.accepted + [token]), Ok)
  }

  class TeamTable {
    const emailOf: User -> string
    var rows: seq<Row>
    var issued: nat
    ghost var accepted: seq<Token>

    ghost function Abs(): State
      reads this
    {
      State(rows, issued, accepted)
    }

    constructor (emailOf: User -> string)
      ensures this.emailOf == emailOf && Abs() == State([], 0, [])
    {
      this.emailOf := emailOf;
      rows, issued, accepted := [], 0, [];
    }

    method InviteTeamMember(dealer: User, rawEmail: string, role: Change<Role>, now: int) returns (r: Reply)
      modifies this
      ensures (Abs(), r) == Step(old(Abs()), emailOf, Invite(dealer, rawEmail, role, now))
    {
      var email := Normal(rawEmail);
      if !ValidEmail(email) || role.Unknown? {
        return BadRequest400;
      }
      var existing := FindRow(rows, dealer, email);
      if existing.Some? {
        if rows[existing.value].status != Removed {
          return Conflict409;
        }
      }
      var token := issued;
      issued := issued + 1;
      var row := Row(dealer, email, if role.To? then role.value else SalesAgent, Invited, None, Some(token), Some(now + WEEK));
      if existing.Some? {
        rows := rows[existing.value := row];
      } else {
        rows := rows + [row];
      }
      r := Invitation(token);
    }

    method UpdateTeamMember(dealer: User, id: nat, newRole: Change<Role>, newStatus: Change<Status>, permissions: Change<bool>)
      returns (r: Reply)
      modifies this
      ensures (Abs(), r) == Step(old(Abs()), emailOf, Update(dealer, id, newRole, newStatus, permissions))
    {
      if !(id < |rows| && rows[id].dealer == dealer) {
        return NotFound404;
      }
      var row := rows[id];
      if newRole.To? {
        row := row.(role := newRole.value);
      }
      if newStatus.To? {
        row := row.(status := newStatus.value);
      }
      if newRole.Unknown? || newStatus.Unknown? || permissions.Unknown?
         || (newRole.Absent? && newStatus.Absent? && permissions.Absent?) {
        return BadRequest400;
      }
      rows := rows[id := row];
      r := Ok;
    }

    method AcceptTeamInvite(user: User, token: Token, now: int) returns (r: Reply)
      modifies this
      ensures (Abs(), r) == Step(old(Abs()), emailOf, Accept(user, token, now))
    {
      var found := FindInvite(rows, token);
      if found.None? {
        return NotFound404;
      }
      var row := rows[found.value];
      if row.expiresAt.Some? && row.expiresAt.value <= now {
        return Gone410;
      }
      if Normal(emailOf(user)) != Normal(row.email) {
        return Forbidden403;
      }
      if ActiveIn(rows, row.dealer, user) {
        return Conflict409;
      }
      rows := rows[found.value := row.(member := Some(user), status := Active, tokenHash := None, expiresAt := None)];
      accepted := accepted + [token];
      r := Ok;
    }
  }

  // ---------- every run ----------

  function Run(emailOf: User -> string, actions: seq<Action>): State {
    if actions == [] then State([], 0, [])
    else Step(Run(emailOf, actions[..|actions| - 1]), emailOf, actions[|actions| - 1]).0
  }

  predicate OneRowEach(rows: seq<Row>) {
    forall i, j | 0 <= i < j < |rows| :: !(rows[i].dealer == rows[j].dealer && rows[i].email == rows[j].email)
  }

  predicate Owned(rows: seq<Row>, emailOf: User -> string) {
    forall i | 0 <= i < |rows| ::
      && Normal(rows[i].email) == rows[i].email
      && (rows[i].member.Some? ==> Normal(emailOf(rows[i].member.value)) == rows[i].email)
  }

  // A token is either in one row, or accepted once, or neither.
  predicate Tokens(s: State) {
    && (forall i | 0 <= i < |s.rows| && s.rows[i].tokenHash.Some? ::
          s.rows[i].tokenHash.value < s.issued && s.rows[i].tokenHash.value !in s.accepted)
    && (forall i, j | 0 <= i < j < |s.rows| && s.rows[i].tokenHash.Some? :: s.rows[i].tokenHash != s.rows[j].tokenHash)
    && (forall i | 0 <= i < |s.accepted| :: s.accepted[i] < s.issued)
    && (forall i, j | 0 <= i < j < |s.accepted| :: s.accepted[i] != s.accepted[j])
  }

  predicate Inv(s: State, emailOf: User -> string) {
    OneRowEach(s.rows) && Owned(s.rows, emailOf) && Tokens(s)
  }

  lemma InviteKeeps(s: State, emailOf: User -> string, a: Action)
    requires Inv(s, emailOf) && a.Invite? && Normal(Normal(a.rawEmail)) == Normal(a.rawEmail)
    ensures Inv(Step(s, emailOf, a).0, emailOf)
  {
    hide Normal, ValidEmail;
    var s' := Step(s, emailOf, a).0;
    assert OneRowEach(s'.rows) by { hide Owned, Tokens; }
    assert Owned(s'.rows, emailOf) by { hide OneRowEach, Tokens; }
    assert Tokens(s') by { hide OneRowEach, Owned; }
  }

  lemma AcceptKeeps(s: State, emailOf: User -> string, a: Action)
    requires Inv(s, emailOf) && a.Accept?
    ensures Inv(Step(s, emailOf, a).0, emailOf)
  {
    hide Normal, ActiveIn;
    var s' := Step(s, emailOf, a).0;
    assert OneRowEach(s'.rows) by { hide Owned, Tokens; }
    assert Owned(s'.rows, emailOf) by { hide OneRowEach, Tokens; }
    assert Tokens(s') by { hide OneRowEach, Owned; }
  }

  lemma StepKeeps(s: State, emailOf: User -> string, a: Action)
    requires Inv(s, emailOf)
    ensures Inv(Step(s, emailOf, a).0, emailOf)
  {
    match a
    case Invite(_, rawEmail, _, _) =>
      NormalTwice(rawEmail);
      hide Normal, ValidEmail;
      InviteKeeps(s, emailOf, a);
    case Update(_, _, _, _, _) =>
    case Accept(_, _, _) =>
      hide Normal;
      AcceptKeeps(s, emailOf, a);
  }

  lemma {:induction false} RunKeeps(emailOf: User -> string, actions: seq<Action>)
    ensures Inv(Run(emailOf, actions), emailOf)
  {
    if actions != [] {
      RunKeeps(emailOf, actions[..|actions| - 1]);
      StepKeeps(Run(emailOf, actions[..|actions| - 1]), emailOf, actions[|actions| - 1]);
    }
  }

  // In every run: one row per dealer and address, every member owns the address invited, and no token is
  // accepted twice.
  lemma TeamsStaySound(emailOf: User -> string, actions: seq<Action>)
    ensures var s := Run(emailOf, actions);
      && (forall i, j | 0 <= i < |s.rows| && 0 <= j < |s.rows| ::
            s.rows[i].dealer == s.rows[j].dealer && s.rows[i].email == s.rows[j].email ==> i == j)
      && (forall i | 0 <= i < |s.rows| && s.rows[i].member.Some? :: Normal(emailOf(s.rows[i].member.value)) == s.rows[i].email)
      && (forall i, j | 0 <= i < j < |s.accepted| :: s.accepted[i] != s.accepted[j])
  {
    RunKeeps(emailOf, actions);
  }

  // So a user belongs to a dealer's team through one row at most, whatever its status.
  lemma OneMembershipEach(emailOf: User -> string, actions: seq<Action>, i: nat, j: nat)
    requires var s := Run(emailOf, actions);
      && i < |s.rows| && j < |s.rows| && s.rows[i].dealer == s.rows[j].dealer
      && s.rows[i].member.Some? && s.rows[i].member == s.rows[j].member
    ensures i == j
  {
    RunKeeps(emailOf, actions);
    var s := Run(emailOf, actions);
    assert s.rows[i].email == s.rows[j].email;
  }

  // And the handler's test for an active membership never fires: what it looks for cannot exist once the
  // invitation's address is the user's.
  lemma AlreadyMemberNeverHappens(emailOf: User -> string, actions: seq<Action>, user: User, token: Token, now: int)
    ensures Step(Run(emailOf, actions), emailOf, Accept(user, token, now)).1 != Conflict409
  {
    RunKeeps(emailOf, actions);
    hide Normal;
    var s := Run(emailOf, actions);
    var found := FindInvite(s.rows, token);
    if found.Some? && Normal(emailOf(user)) == Normal(s.rows[found.value].email) {
      var row := s.rows[found.value];
      forall i | 0 <= i < |s.rows| && s.rows[i].dealer == row.dealer && s.rows[i].member == Some(user)
        ensures i == found.value
      {
        assert s.rows[i].email == row.email;
      }
    }
  }

  // ---------- what each request does ----------

  // Something, without blanks and at signs.
  predicate AddressPart(s: string) {
    s != "" && '@' !in s && forall k | 0 <= k < |s| :: s[k] !in " \t\n\r\U{0B}\U{0C}"
  }

  ghost predicate AddressOf(s: string, user: string, host: string, domain: string) {
    s == user + "@" + host + "." + domain && AddressPart(user) && AddressPart(host) && AddressPart(domain)
  }

  lemma PartOk(s: string, from: nat, to: nat)
    requires from < to <= |s| && forall k | from <= k < to :: s[k] != '@' && !IsBlank(s[k])
    ensures AddressPart(s[from..to])
  {
    forall k | from <= k < to
      ensures s[k] !in " \t\n\r\U{0B}\U{0C}"
    {
      BlankChars(s[k]);
    }
    var part := s[from..to];
    forall k | 0 <= k < |part|
      ensures part[k] == s[from + k]
    {
    }
  }

  lemma AddressChars(s: string, user: string, host: string, domain: string)
    requires AddressOf(s, user, host, domain)
    ensures ValidEmail(s)
  {
    var i, j := |user|, |user| + 1 + |host|;
    assert |s| == j + 1 + |domain|;
    assert s[i] == '@' && s[j] == '.';
    forall k | 0 <= k < |s| && k != i
      ensures s[k] != '@' && !IsBlank(s[k])
    {
      BlankChars(s[k]);
      if k < i {
        assert s[k] == user[k];
      } else if k < j {
        assert s[k] == host[k - i - 1];
      } else if k > j {
        assert s[k] == domain[k - j - 1];
      }
    }
  }

  lemma AddressParts(s: string) returns (user: string, host: string, domain: string)
    requires ValidEmail(s)
    ensures AddressOf(s, user, host, domain)
  {
    var i, j :| 0 < i < j < |s| - 1 && i + 1 < j && s[i] == '@' && s[j] == '.'
      && forall k | 0 <= k < |s| && k != i :: s[k] != '@' && !IsBlank(s[k]);
    PartOk(s, 0, i);
    PartOk(s, i + 1, j);
    PartOk(s, j + 1, |s|);
    user, host, domain := s[0..i], s[i + 1..j], s[j + 1..|s|];
    assert s == user + "@" + host + "." + domain;
  }

  // An address is accepted if it is something@something.something.
  lemma ValidEmailMeans(s: string)
    ensures ValidEmail(s) <==> exists user, host, domain :: AddressOf(s, user, host, domain)
  {
    if ValidEmail(s) {
      var user, host, domain := AddressParts(s);
    } else if user, host, domain :| AddressOf(s, user, host, domain) {
      AddressChars(s, user, host, domain);
    }
  }

  // A row of the dealer for the address, removed or not.
  ghost predicate Listed(s: State, dealer: User, email: string, i: int) {
    0 <= i < |s.rows| && s.rows[i].dealer == dealer && s.rows[i].email == email
  }

  ghost predicate OthersSame(s: State, s': State, i: int) {
    && 0 <= i < |s'.rows| && |s.rows| <= |s'.rows| && |s'.rows| <= (if i < |s.rows| then |s.rows| else i + 1)
    && forall k | 0 <= k < |s.rows| && k != i :: s'.rows[k] == s.rows[k]
  }

  // An invitation is refused for a bad address or role, and for an address that the dealer has a row for
  // that is not removed.  Otherwise that row, or a new one, becomes the invitation: for a week, with a new
  // token, and with nobody in it yet.
  lemma InvitesExactly(emailOf: User -> string, actions: seq<Action>, a: Action)
    requires a.Invite?
    ensures var s, email := Run(emailOf, actions), Normal(a.rawEmail);
      var (s', r) := Step(s, emailOf, a);
      && (r == BadRequest400 <==> !ValidEmail(email) || a.role.Unknown?)
      && (r == Conflict409 <==> r != BadRequest400 && exists i :: Listed(s, a.dealer, email, i) && s.rows[i].status != Removed)
      && (r != BadRequest400 && r != Conflict409 ==> r.Invitation?)
      && (r.Invitation? ==>
            && r.token !in s.accepted && (forall i | 0 <= i < |s.rows| :: s.rows[i].tokenHash != Some(r.token))
            && exists i :: OthersSame(s, s', i) && (Listed(s, a.dealer, email, i) || i == |s.rows|)
                           && s'.rows[i] == Row(a.dealer, email, if a.role.To? then a.role.value else SalesAgent, Invited, None,
                                                Some(r.token), Some(a.now + 604800000)))
      && (!r.Invitation? ==> s' == s)
  {
    RunKeeps(emailOf, actions);
    hide Normal, ValidEmail, Owned, Run;
    var s, email := Run(emailOf, actions), Normal(a.rawEmail);
    var (s', r) := Step(s, emailOf, a);
    var found := FindRow(s.rows, a.dealer, email);
    if r.Invitation? {
      var i := if found.Some? then found.value else |s.rows|;
      assert OthersSame(s, s', i);
    } else if r == Conflict409 {
      assert Listed(s, a.dealer, email, found.value);
    }
    if i :| Listed(s, a.dealer, email, i) && s.rows[i].status != Removed {
      assert found == Some(i);
    }
  }

  // An update concerns a row of the dealer's own, and changes the role and the status asked for.
  lemma UpdatesExactly(s: State, emailOf: User -> string, a: Action)
    requires a.Update?
    ensures var (s', r) := Step(s, emailOf, a);
      && (r == NotFound404 <==> !(a.id < |s.rows| && s.rows[a.id].dealer == a.dealer))
      && (r == BadRequest400
          <==> && r != NotFound404
               && (|| a.newRole == Unknown || a.newStatus == Unknown || a.permissions == Unknown
                   || (a.newRole == Absent && a.newStatus == Absent && a.permissions == Absent)))
      && (r == NotFound404 || r == BadRequest400 || r == Ok) && (r != Ok ==> s' == s)
      && (r == Ok ==>
            && OthersSame(s, s', a.id) && s'.issued == s.issued && s'.accepted == s.accepted
            && var row, row' := s.rows[a.id], s'.rows[a.id];
               && row'.role == (match a.newRole case To(role) => role case _ => row.role)
               && row'.status == (match a.newStatus case To(status) => status case _ => row.status)
               && row' == row.(role := row'.role, status := row'.status))
  {
  }

  ghost predicate Invites(s: State, token: Token, i: int) {
    0 <= i < |s.rows| && s.rows[i].tokenHash == Some(token) && s.rows[i].status == Invited
  }

  // An invitation is accepted if it is still open, has not expired and was sent to the user's address.  Then
  // its row becomes the user's and the token is spent.  Otherwise nothing changes.
  lemma AcceptsExactly(emailOf: User -> string, actions: seq<Action>, a: Action)
    requires a.Accept?
    ensures var s := Run(emailOf, actions);
      var (s', r) := Step(s, emailOf, a);
      && (r == NotFound404 <==> forall i :: !Invites(s, a.token, i))
      && (forall i | Invites(s, a.token, i) ::
            var row := s.rows[i];
            var expired := row.expiresAt.Some? && row.expiresAt.value <= a.now;
            var own := Normal(emailOf(a.user)) == row.email;
            && r == (if expired then Gone410 else if !own then Forbidden403 else Ok)
            && (r == Ok ==>
                  && OthersSame(s, s', i) && s'.accepted == s.accepted + [a.token] && s'.issued == s.issued
                  && s'.rows[i] == row.(member := Some(a.user), status := Active, tokenHash := None, expiresAt := None)))
      && (r != Ok ==> s' == s)
  {
    RunKeeps(emailOf, actions);
    AlreadyMemberNeverHappens(emailOf, actions, a.user, a.token, a.now);
    hide Normal, ActiveIn, Run, Inv;
    var s := Run(emailOf, actions);
    InviteFound(s, emailOf, a.token);
  }

  lemma InviteFound(s: State, emailOf: User -> string, token: Token)
    requires Inv(s, emailOf)
    ensures forall i :: Invites(s, token, i) <==> FindInvite(s.rows, token) == Some(i)
    ensures forall i | Invites(s, token, i) :: Normal(s.rows[i].email) == s.rows[i].email
  {
    hide Normal;
  }

  // The request at place j sent the invitation that this row holds.
  ghost predicate SentAt(emailOf: User -> string, actions: seq<Action>, j: int, row: Row) {
    && 0 <= j < |actions| && actions[j].Invite? && row.tokenHash.Some?
    && Step(Run(emailOf, actions[..j]), emailOf, actions[j]).1 == Invitation(row.tokenHash.value)
    && row.dealer == actions[j].dealer && row.email == Normal(actions[j].rawEmail)
    && row.expiresAt == Some(actions[j].now + 604800000)
  }

  ghost predicate Sent(emailOf: User -> string, actions: seq<Action>, row: Row) {
    exists j :: SentAt(emailOf, actions, j, row)
  }

  lemma SentLonger(emailOf: User -> string, actions: seq<Action>, a: Action, row: Row)
    requires Sent(emailOf, actions, row)
    ensures Sent(emailOf, actions + [a], row)
  {
    hide Step, Run, Normal;
    var j :| SentAt(emailOf, actions, j, row);
    assert (actions + [a])[..j] == actions[..j];
    assert SentAt(emailOf, actions + [a], j, row);
  }

  lemma SentNow(emailOf: User -> string, actions: seq<Action>, a: Action, i: nat)
    requires a.Invite? && Step(Run(emailOf, actions), emailOf, a).1.Invitation?
    requires var s, s' := Run(emailOf, actions), Step(Run(emailOf, actions), emailOf, a).0;
      i < |s'.rows| && (i >= |s.rows| || s'.rows[i] != s.rows[i])
    ensures Sent(emailOf, actions + [a], Step(Run(emailOf, actions), emailOf, a).0.rows[i])
  {
    var s' := Step(Run(emailOf, actions), emailOf, a).0;
    hide Normal, ValidEmail, Run;
    assert (actions + [a])[..|actions|] == actions;
    assert SentAt(emailOf, actions + [a], |actions|, s'.rows[i]);
  }

  // Every token in the table came from an invitation, whose dealer, address and time its row still shows.
  lemma {:induction false} TokensWereSent(emailOf: User -> string, actions: seq<Action>)
    ensures forall i | 0 <= i < |Run(emailOf, actions).rows| && Run(emailOf, actions).rows[i].tokenHash.Some? ::
              Sent(emailOf, actions, Run(emailOf, actions).rows[i])
  {
    if actions != [] {
      var before, a := actions[..|actions| - 1], actions[|actions| - 1];
      TokensWereSent(emailOf, before);
      assert actions == before + [a];
      var s, s' := Run(emailOf, before), Run(emailOf, actions);
      hide Run, SentAt, Normal, ValidEmail, ActiveIn, Step;
      forall i | 0 <= i < |s'.rows| && s'.rows[i].tokenHash.Some?
        ensures Sent(emailOf, actions, s'.rows[i])
      {
        TokenFrom(s, emailOf, a, i);
        if a.Invite? && (i >= |s.rows| || s'.rows[i] != s.rows[i]) {
          SentNow(emailOf, before, a, i);
        } else {
          SentLonger(emailOf, before, a, s.rows[i]);
          SentAlike(emailOf, actions, s.rows[i], s'.rows[i]);
        }
      }
    }
  }

  lemma TokenFrom(s: State, emailOf: User -> string, a: Action, i: nat)
    requires var s' := Step(s, emailOf, a).0; i < |s'.rows| && s'.rows[i].tokenHash.Some?
    ensures var (s', r) := Step(s, emailOf, a);
      if a.Invite? && (i >= |s.rows| || s'.rows[i] != s.rows[i]) then r.Invitation?
      else && i < |s.rows| && s'.rows[i].tokenHash == s.rows[i].tokenHash && s'.rows[i].dealer == s.rows[i].dealer
           && s'.rows[i].email == s.rows[i].email && s'.rows[i].expiresAt == s.rows[i].expiresAt
  {
    hide Normal, ValidEmail, ActiveIn;
  }

  // Role, status and member do not matter for that.
  lemma SentAlike(emailOf: User -> string, actions: seq<Action>, row: Row, row': Row)
    requires Sent(emailOf, actions, row) && row'.tokenHash == row.tokenHash
    requires row'.dealer == row.dealer && row'.email == row.email && row'.expiresAt == row.expiresAt
    ensures Sent(emailOf, actions, row')
  {
    var j :| SentAt(emailOf, actions, j, row);
    assert SentAt(emailOf, actions, j, row');
  }

  // In every run, whoever gets into a team was invited by its dealer, at an own address, less than seven
  // days before.
  lemma MembersWereInvited(emailOf: User -> string, actions: seq<Action>, a: Action)
    requires a.Accept? && Step(Run(emailOf, actions), emailOf, a).1 == Ok
    ensures exists j, row :: SentAt(emailOf, actions, j, row) && row.tokenHash == Some(a.token)
              && a.now < actions[j].now + 604800000 && Normal(actions[j].rawEmail) == Normal(emailOf(a.user))
              && row in Run(emailOf, actions).rows
  {
    AcceptsExactly(emailOf, actions, a);
    TokensWereSent(emailOf, actions);
    hide Normal, Step, Run;
    var s := Run(emailOf, actions);
    var i :| Invites(s, a.token, i);
    assert Sent(emailOf, actions, s.rows[i]);
    var j :| SentAt(emailOf, actions, j, s.rows[i]);
  }
}

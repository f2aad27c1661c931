/**
 Refresh-token sessions of backend/controllers/authController.js: login, register, password change,
 rotating refresh, revocation of one session, and logout or revoke-all, each handler atomic, every
 signed token fresh.

 The handlers call RefreshToken.revokeToken and RefreshToken.revokeAllForUser.  At this commit
 backend/models/RefreshToken.js defines neither, so such a call throws and the handler answers 500.
 The constant `helpers` says whether they exist; every result below says which case it is about.
 */
module RefreshTokens {
  import opened Wrappers

  type UserId = string

  // authVersion is user_auth.token_version; signedVersion is what generateRefreshToken signs, the user
  // row's own tokenVersion or 0 (the users table has no such column, and no handler here writes one).
  datatype Account = Account(authVersion: nat, signedVersion: nat)
  datatype Token = Token(serial: nat, user: UserId, version: nat)

  // A chain is started by login, register or password change and extended by refresh.
  datatype Row = Row(token: Token, chain: nat, revoked: bool)

  datatype State = State(accounts: map<UserId, Account>, rows: seq<Row>)

  datatype Action =
    | Register(user: UserId)
    | Login(user: UserId)
    | ChangePassword(user: UserId)
    | Refresh(token: Token, signatureOk: bool)
    | RevokeSession(user: UserId, row: nat)
    | LogoutAll(user: UserId)

  datatype Reply = Session(token: Token) | Rejected | NotFound | Done | Error500

  function Live(rows: seq<Row>, token: Token): (r: Option<nat>)
    ensures r.Some? ==> r.value < |rows| && rows[r.value].token == token && !rows[r.value].revoked
    ensures r.None? ==> forall i | 0 <= i < |rows| :: rows[i].token != token || rows[i].revoked
  {
    if rows == [] then None
    else
      var k := |rows| - 1;
      if rows[k].token == token && !rows[k].revoked then Some(k) else Live(rows[..k], token)
  }

  // Mark the rows of the token, or of the user.
  function RevokeToken(rows: seq<Row>, token: Token): (r: seq<Row>)
    ensures |r| == |rows|
    ensures forall i | 0 <= i < |rows| ::
              r[i] == if rows[i].token == token then rows[i].(revoked := true) else rows[i]
  {
    seq(|rows|, i requires 0 <= i < |rows| =>
      if rows[i].token == token then rows[i].(revoked := true) else rows[i])
  }

  function RevokeUser(rows: seq<Row>, user: UserId): (r: seq<Row>)
    ensures |r| == |rows|
    ensures forall i | 0 <= i < |rows| ::
              r[i] == if rows[i].token.user == user then rows[i].(revoked := true) else rows[i]
  {
    seq(|rows|, i requires 0 <= i < |rows| =>
      if rows[i].token.user == user then rows[i].(revoked := true) else rows[i])
  }

  // The checks of the refresh handler.
  predicate Accepts(s: State, token: Token) {
    && Live(s.rows, token).Some? && token.user in s.accounts
    && token.version == s.accounts[token.user].authVersion
  }

  function NewToken(s: State, user: UserId): Token
    requires user in s.accounts
  {
    Token(|s.rows|, user, s.accounts[user].signedVersion)
  }

  function Opened(s: State, user: UserId): (State, Reply)
    requires user in s.accounts
  {
    (s.(rows := s.rows + [Row(NewToken(s, user), |s.rows|, false)]), Session(NewToken(s, user)))
  }

  function Step(s: State, helpers: bool, a: Action): (State, Reply) {
    match a
    case Register(user) =>
      if user in s.accounts then (s, Rejected)
      else Opened(s.(accounts := s.accounts[user := Account(0, 0)]), user)
    case Login(user) => if user in s.accounts then Opened(s, user) else (s, Rejected)
    case ChangePassword(user) =>
      if user !in s.accounts then (s, NotFound)
      else
        var acc := s.accounts[user];
        Opened(s.(accounts := s.accounts[user := acc.(authVersion := acc.authVersion + 1)]), user)
    case Refresh(token, signatureOk) =>
      if !signatureOk || !Accepts(s, token) then (s, Rejected)
      else
        var issued := NewToken(s, token.user);
        var rows := s.rows + [Row(issued, s.rows[Live(s.rows, token).value].chain, false)];
        if helpers then (s.(rows := RevokeToken(rows, token)), Session(issued)) else (s.(rows := rows), Error500)
    case RevokeSession(user, i) =>
      if !(i < |s.rows| && s.rows[i].token.user == user && !s.rows[i].revoked) then (s, NotFound)
      else if helpers then (s.(rows := RevokeToken(s.rows, s.rows[i].token)), Done) else (s, Error500)
    case LogoutAll(user) =>
      if !helpers then (s, Error500)
      else
        var accounts := if user in s.accounts
          then s.accounts[user := s.accounts[user].(authVersion := s.accounts[user].authVersion + 1)] else s.accounts;
        (State(accounts, RevokeUser(s.rows, user)), Done)
  }

  // The handlers, step by step.
  class AuthStore {
    const helpers: bool
    var accounts: map<UserId, Account>
    var rows: seq<Row>

    function Abs(): State
      reads this
    {
      State(accounts, rows)
    }

    constructor (helpers: bool)
      ensures this.helpers == helpers && Abs() == State(map[], [])
    {
      this.helpers, accounts, rows := helpers, map[], [];
    }

    // Creates the new row before it revokes the old token; without the helper the revocation throws.
    method SendAuthResponse(user: UserId, chain: nat, oldToken: Option<Token>) returns (r: Reply)
      requires user in accounts
      modifies this`rows
      ensures var issued := NewToken(old(Abs()), user);
        var created := old(rows) + [Row(issued, chain, false)];
        if oldToken.None? then rows == created && r == Session(issued)
        else if helpers then rows == RevokeToken(created, oldToken.value) && r == Session(issued)
        else rows == created && r == Error500
    {
      var issued := Token(|rows|, user, accounts[user].signedVersion);
      rows := rows + [Row(issued, chain, false)];
      if oldToken.Some? {
        if !helpers {
          return Error500;
        }
        rows := RevokeToken(rows, oldToken.value);
      }
      r := Session(issued);
    }

    method Handle(a: Action) returns (r: Reply)
      modifies this
      ensures (Abs(), r) == Step(old(Abs()), helpers, a)
    {
      match a
      case Register(user) =>
        if user in accounts {
          return Rejected;
        }
        accounts := accounts[user := Account(0, 0)];
        r := SendAuthResponse(user, |rows|, None);
      case Login(user) =>
        if user !in accounts {
          return Rejected;
        }
        r := SendAuthResponse(user, |rows|, None);
      case ChangePassword(user) =>
        if user !in accounts {
          return NotFound;
        }
        accounts := accounts[user := accounts[user].(authVersion := accounts[user].authVersion + 1)];
        r := SendAuthResponse(user, |rows|, None);
      case Refresh(token, signatureOk) =>
        if !signatureOk {
          return Rejected;
        }
        var stored := Live(rows, token);
        if stored.None? || token.user !in accounts || token.version != accounts[token.user].authVersion {
          return Rejected;
        }
        r := SendAuthResponse(token.user, rows[stored.value].chain, Some(token));
      case RevokeSession(user, i) =>
        if !(i < |rows| && rows[i].token.user == user && !rows[i].revoked) {
          return NotFound;
        }
        if !helpers {
          return Error500;
        }
        rows := RevokeToken(rows, rows[i].token);
        r := Done;
      case LogoutAll(user) =>
        if !helpers {
          return Error500;
        }
        rows := RevokeUser(rows, user);
        if user in accounts {
          accounts := accounts[user := accounts[user].(authVersion := accounts[user].authVersion + 1)];
        }
        r := Done;
    }
  }

  // ---------- runs ----------

  function Run(s: State, helpers: bool, actions: seq<Action>): State {
    if actions == [] then s
    else Step(Run(s, helpers, actions[..|actions| - 1]), helpers, actions[|actions| - 1]).0
  }

  const EMPTY := State(map[], [])

  // Every token is stored once, under a registered user, signed with that user's version.
  predicate Stored(s: State) {
    forall i | 0 <= i < |s.rows| ::
      var t := s.rows[i].token;
      t.serial == i && t.user in s.accounts && t.version == s.accounts[t.user].signedVersion && s.rows[i].chain <= i
  }

  predicate OnePerChain(s: State) {
    forall i, j | 0 <= i < j < |s.rows| && s.rows[i].chain == s.rows[j].chain :: s.rows[i].revoked || s.rows[j].revoked
  }

  // Nothing that was signed or revoked is undone.
  predicate Later(s: State, s': State) {
    && |s.rows| <= |s'.rows|
    && (forall i | 0 <= i < |s.rows| ::
          s'.rows[i].token == s.rows[i].token && (s.rows[i].revoked ==> s'.rows[i].revoked))
    && (forall u | u in s.accounts ::
          u in s'.accounts && s'.accounts[u].signedVersion == s.accounts[u].signedVersion
          && s.accounts[u].authVersion <= s'.accounts[u].authVersion)
  }

  lemma OpenedStored(s: State, user: UserId, chain: nat)
    requires Stored(s) && user in s.accounts && chain <= |s.rows|
    ensures var s' := s.(rows := s.rows + [Row(NewToken(s, user), chain, false)]);
      Stored(s') && Later(s, s')
  {
  }

  // Accounts are added, or their stored version is raised.
  lemma AccountStored(s: State, user: UserId, acc: Account)
    requires Stored(s)
    requires user in s.accounts ==>
      acc.signedVersion == s.accounts[user].signedVersion && s.accounts[user].authVersion <= acc.authVersion
    ensures var s' := s.(accounts := s.accounts[user := acc]);
      Stored(s') && Later(s, s')
  {
  }

  lemma RevokedStored(s: State, rows: seq<Row>)
    requires Stored(s) && |rows| == |s.rows|
    requires forall i | 0 <= i < |rows| :: rows[i] == s.rows[i] || rows[i] == s.rows[i].(revoked := true)
    ensures Stored(s.(rows := rows)) && Later(s, s.(rows := rows))
  {
  }

  lemma StepStored(s: State, helpers: bool, a: Action)
    requires Stored(s)
    ensures Stored(Step(s, helpers, a).0) && Later(s, Step(s, helpers, a).0)
  {
    var s' := Step(s, helpers, a).0;
    match a
    case Register(user) =>
      if user !in s.accounts {
        hide Stored, Later;
        var s1 := s.(accounts := s.accounts[user := Account(0, 0)]);
        AccountStored(s, user, Account(0, 0));
        OpenedStored(s1, user, |s.rows|);
        LaterTwice(s, s1, s');
      } else {
        LaterSame(s);
      }
    case Login(user) =>
      if user in s.accounts {
        OpenedStored(s, user, |s.rows|);
      }
    case ChangePassword(user) =>
      if user in s.accounts {
        hide Stored, Later;
        var acc := s.accounts[user].(authVersion := s.accounts[user].authVersion + 1);
        var s1 := s.(accounts := s.accounts[user := acc]);
        AccountStored(s, user, acc);
        OpenedStored(s1, user, |s.rows|);
        LaterTwice(s, s1, s');
      } else {
        LaterSame(s);
      }
    case Refresh(token, signatureOk) =>
      if signatureOk && Accepts(s, token) {
        RefreshStored(s, helpers, token);
      }
    case RevokeSession(user, i) =>
      if i < |s.rows| && helpers {
        RevokedStored(s, RevokeToken(s.rows, s.rows[i].token));
      }
    case LogoutAll(user) =>
      if helpers {
        hide Stored, Later;
        var s1 := s.(rows := RevokeUser(s.rows, user));
        RevokedStored(s, s1.rows);
        LaterSame(s1);
        if user in s.accounts {
          AccountStored(s1, user, s.accounts[user].(authVersion := s.accounts[user].authVersion + 1));
        }
        LaterTwice(s, s1, s');
      } else {
        LaterSame(s);
      }
  }

  lemma LaterSame(s: State)
    ensures Later(s, s)
  {
  }

  lemma RefreshStored(s: State, helpers: bool, token: Token)
    requires Stored(s) && Accepts(s, token)
    ensures var s' := Step(s, helpers, Refresh(token, true)).0;
      Stored(s') && Later(s, s')
  {
    var s' := Step(s, helpers, Refresh(token, true)).0;
    var chain := s.rows[Live(s.rows, token).value].chain;
    var s1 := s.(rows := s.rows + [Row(NewToken(s, token.user), chain, false)]);
    assert chain <= |s.rows|;
    hide Stored, Later;
    OpenedStored(s, token.user, chain);
    if helpers {
      RevokedStored(s1, RevokeToken(s1.rows, token));
      LaterTwice(s, s1, s');
    }
  }

  lemma {:induction false} RunStored(s: State, helpers: bool, actions: seq<Action>)
    requires Stored(s)
    ensures Stored(Run(s, helpers, actions)) && Later(s, Run(s, helpers, actions))
  {
    if actions != [] {
      var before := Run(s, helpers, actions[..|actions| - 1]);
      RunStored(s, helpers, actions[..|actions| - 1]);
      StepStored(before, helpers, actions[|actions| - 1]);
      LaterTwice(s, before, Run(s, helpers, actions));
    }
  }

  lemma LaterTwice(s: State, s': State, s'': State)
    requires Later(s, s') && Later(s', s'')
    ensures Later(s, s'')
  {
  }

  // With the helpers, rotation leaves at most one live token in each chain.
  lemma StepOnePerChain(s: State, a: Action)
    requires Stored(s) && OnePerChain(s)
    ensures OnePerChain(Step(s, true, a).0)
  {
    if a.Refresh? && a.signatureOk && Accepts(s, a.token) {
      var k := Live(s.rows, a.token).value;
      var s' := Step(s, true, a).0;
      assert s'.rows[k].revoked;
      forall i | 0 <= i < |s.rows| && s.rows[i].chain == s.rows[k].chain
        ensures s'.rows[i].revoked
      {
        assert i != k ==> s.rows[i].revoked;
      }
    }
  }

  lemma {:induction false} ChainsHaveOneLiveToken(actions: seq<Action>)
    ensures OnePerChain(Run(EMPTY, true, actions))
  {
    if actions != [] {
      RunStored(EMPTY, true, actions[..|actions| - 1]);
      ChainsHaveOneLiveToken(actions[..|actions| - 1]);
      StepOnePerChain(Run(EMPTY, true, actions[..|actions| - 1]), actions[|actions| - 1]);
    }
  }

  // And they are needed: whenever a token passes the checks of refresh, the chain is left with one live
  // token if the helpers exist and with two if they do not.
  lemma RotationNeedsRevokeToken(s: State, helpers: bool, token: Token)
    requires Stored(s) && OnePerChain(s) && Accepts(s, token)
    ensures OnePerChain(Step(s, helpers, Refresh(token, true)).0) <==> helpers
  {
    if helpers {
      StepOnePerChain(s, Refresh(token, true));
    } else {
      var s', k := Step(s, helpers, Refresh(token, true)).0, Live(s.rows, token).value;
      assert s'.rows[k].chain == s'.rows[|s.rows|].chain && !s'.rows[k].revoked && !s'.rows[|s.rows|].revoked;
    }
  }

  // A token whose row has been revoked is never accepted again.
  lemma RevokedForever(s: State, helpers: bool, actions: seq<Action>, i: nat)
    requires Stored(s) && i < |s.rows| && s.rows[i].revoked
    ensures !Accepts(Run(s, helpers, actions), s.rows[i].token)
  {
    RunStored(s, helpers, actions);
    var s' := Run(s, helpers, actions);
    forall k | 0 <= k < |s'.rows| && s'.rows[k].token == s.rows[i].token
      ensures k == i
    {
      assert s'.rows[k].token.serial == k && s'.rows[i].token.serial == i;
    }
  }

  // Each token is accepted at most once, in every run.
  lemma AcceptedOnce(before: seq<Action>, token: Token, after: seq<Action>)
    requires Accepts(Run(EMPTY, true, before), token)
    ensures var s := Run(EMPTY, true, before);
      && Step(s, true, Refresh(token, true)).1.Session?
      && !Accepts(Run(Step(s, true, Refresh(token, true)).0, true, after), token)
  {
    var s := Run(EMPTY, true, before);
    RunStored(EMPTY, true, before);
    StepStored(s, true, Refresh(token, true));
    RevokedForever(Step(s, true, Refresh(token, true)).0, true, after, Live(s.rows, token).value);
  }

  // And only with the helpers: a token that refresh has accepted is refused from then on, whatever follows,
  // if they exist, and is accepted again at once if they do not.
  lemma OnceNeedsRevokeToken(helpers: bool, before: seq<Action>, token: Token)
    requires Accepts(Run(EMPTY, helpers, before), token)
    ensures var s' := Step(Run(EMPTY, helpers, before), helpers, Refresh(token, true)).0;
      && (Accepts(s', token) <==> !helpers)
      && ((forall after :: !Accepts(Run(s', helpers, after), token)) <==> helpers)
  {
    hide Run;
    var s := Run(EMPTY, helpers, before);
    var s' := Step(s, helpers, Refresh(token, true)).0;
    RunStored(EMPTY, helpers, before);
    if helpers {
      forall after
        ensures !Accepts(Run(s', helpers, after), token)
      {
        AcceptedOnce(before, token, after);
      }
      NothingRun(s', helpers);
    } else {
      var k := Live(s.rows, token).value;
      assert s'.rows[k] == s.rows[k];
      NothingRun(s', helpers);
      assert Accepts(Run(s', helpers, []), token);
    }
  }

  lemma NothingRun(s: State, helpers: bool)
    ensures Run(s, helpers, []) == s
  {
  }

  // After logout or revoke-all no token the user was given before is ever accepted.
  lemma LoggedOutForever(before: seq<Action>, user: UserId, after: seq<Action>, i: nat)
    requires var s := Run(EMPTY, true, before); i < |s.rows| && s.rows[i].token.user == user
    ensures var s := Run(EMPTY, true, before);
      !Accepts(Run(Step(s, true, LogoutAll(user)).0, true, after), s.rows[i].token)
  {
    var s := Run(EMPTY, true, before);
    RunStored(EMPTY, true, before);
    StepStored(s, true, LogoutAll(user));
    RevokedForever(Step(s, true, LogoutAll(user)).0, true, after, i);
  }

  // Logout takes a usable token away exactly when the helpers exist: without them it changes nothing.
  lemma LogoutNeedsRevokeAll(s: State, helpers: bool, token: Token)
    requires Stored(s) && Accepts(s, token)
    ensures !Accepts(Step(s, helpers, LogoutAll(token.user)).0, token) <==> helpers
  {
  }

  // ---------- which sessions can be refreshed at all ----------

  // A session just opened can be refreshed exactly if the version signed into its token is the one that
  // refresh compares with.
  lemma NewSessionUsable(s: State, helpers: bool, a: Action)
    requires Stored(s) && Step(s, helpers, a).1.Session?
    ensures var (s', r) := Step(s, helpers, a);
      && r.token.user in s'.accounts
      && (Accepts(s', r.token)
          <==> s'.accounts[r.token.user].signedVersion == s'.accounts[r.token.user].authVersion)
  {
    var (s', r) := Step(s, helpers, a);
    StepStored(s, helpers, a);
    assert s'.rows[|s.rows|].token == r.token && !s'.rows[|s.rows|].revoked;
  }

  lemma {:induction false} SignedZero(helpers: bool, actions: seq<Action>)
    ensures forall u | u in Run(EMPTY, helpers, actions).accounts :: Run(EMPTY, helpers, actions).accounts[u].signedVersion == 0
  {
    if actions != [] {
      SignedZero(helpers, actions[..|actions| - 1]);
    }
  }

  // Since tokens are signed with version 0, a user who has once changed the password or logged out
  // everywhere can log in but never refresh again.
  lemma NoRefreshAfterBump(helpers: bool, before: seq<Action>, user: UserId, after: seq<Action>, token: Token)
    requires var s := Run(EMPTY, helpers, before); user in s.accounts && s.accounts[user].authVersion > 0
    requires token.user == user
    ensures !Accepts(Run(Run(EMPTY, helpers, before), helpers, after), token)
  {
    var s := Run(EMPTY, helpers, before);
    RunStored(EMPTY, helpers, before);
    SignedZero(helpers, before);
    RunStored(s, helpers, after);
    var s' := Run(s, helpers, after);
    if Live(s'.rows, token).Some? {
      assert s'.rows[Live(s'.rows, token).value].token == token;
    }
  }

  // ---------- what each request does ----------

  // Some row of the token is not revoked, and the version signed into it is the user's.
  ghost predicate Usable(s: State, token: Token) {
    && (exists i | 0 <= i < |s.rows| :: s.rows[i].token == token && !s.rows[i].revoked)
    && token.user in s.accounts && s.accounts[token.user].authVersion == token.version
  }

  ghost predicate OwnLiveRow(s: State, user: UserId, i: nat) {
    i < |s.rows| && s.rows[i].token.user == user && !s.rows[i].revoked
  }

  // Which requests sign a new token, for whom.
  ghost predicate SignsFor(s: State, a: Action, user: UserId) {
    || (user !in s.accounts && a == Register(user))
    || (user in s.accounts && (a == Login(user) || a == ChangePassword(user)))
    || (exists token :: a == Refresh(token, true) && Usable(s, token) && token.user == user)
  }

  // A request adds a row exactly if it signs a token, one row, for that user, with a serial number not used
  // before, in a chain of its own or in that of the token refreshed.
  lemma SignsExactly(s: State, helpers: bool, a: Action)
    requires Stored(s)
    ensures var s' := Step(s, helpers, a).0;
      && |s.rows| <= |s'.rows| <= |s.rows| + 1
      && (|s'.rows| > |s.rows| <==> exists user :: SignsFor(s, a, user))
      && (|s'.rows| > |s.rows| ==>
            var row := s'.rows[|s.rows|];
            && SignsFor(s, a, row.token.user) && row.token.serial == |s.rows| && !row.revoked
            && if a.Refresh? then exists k | 0 <= k < |s.rows| :: s.rows[k].token == a.token && s.rows[k].chain == row.chain
               else row.chain == |s.rows|)
  {
    var s' := Step(s, helpers, a).0;
    if |s'.rows| > |s.rows| {
      assert SignsFor(s, a, s'.rows[|s.rows|].token.user);
    }
    if a.Refresh? && Accepts(s, a.token) {
      assert s.rows[Live(s.rows, a.token).value].token == a.token;
    }
  }

  // A row is revoked by the refresh of its token, by its owner, or with all others of its owner, and by
  // nothing else, if the helpers exist.
  lemma RevokesExactly(s: State, helpers: bool, a: Action, i: nat)
    requires Stored(s) && i < |s.rows|
    ensures i < |Step(s, helpers, a).0.rows|
    ensures var row := s.rows[i];
      Step(s, helpers, a).0.rows[i].revoked
      <==> || row.revoked
           || (helpers && (|| (a == Refresh(row.token, true) && Usable(s, row.token))
                           || a == RevokeSession(row.token.user, i)
                           || a == LogoutAll(row.token.user)))
  {
  }

  // Accounts: a registration adds one with both versions 0, a password change and, with the helpers, a
  // logout raise the stored version of their user by one, and nothing else changes anything.
  lemma VersionsExactly(s: State, helpers: bool, a: Action, user: UserId)
    ensures var s' := Step(s, helpers, a).0;
      && (user in s'.accounts <==> user in s.accounts || a == Register(user))
      && (user !in s.accounts && user in s'.accounts ==> s'.accounts[user] == Account(0, 0))
      && (user in s.accounts ==>
            && s'.accounts[user].signedVersion == s.accounts[user].signedVersion
            && s'.accounts[user].authVersion
               == s.accounts[user].authVersion + if a == ChangePassword(user) || (helpers && a == LogoutAll(user)) then 1 else 0)
  {
  }

  // Which answer is given when: a session to whoever is signed a token, unless a refresh stumbles over the
  // missing helper.
  lemma AnswersExactly(s: State, helpers: bool, a: Action)
    requires Stored(s)
    ensures var (s', r) := Step(s, helpers, a);
      && (r.Session? <==> (helpers || !a.Refresh?) && exists user :: SignsFor(s, a, user))
      && (r.Session? ==> |s'.rows| == |s.rows| + 1 && r.token == s'.rows[|s.rows|].token)
      && (r == Rejected
          <==> || (a.Register? && a.user in s.accounts) || (a.Login? && a.user !in s.accounts)
               || (a.Refresh? && !(a.signatureOk && Usable(s, a.token))))
      && (r == NotFound
          <==> || (a.ChangePassword? && a.user !in s.accounts)
               || (a.RevokeSession? && !OwnLiveRow(s, a.user, a.row)))
      && (r == Done <==> helpers && (a.LogoutAll? || (a.RevokeSession? && OwnLiveRow(s, a.user, a.row))))
      && (r == Error500
          <==> !helpers && (a.LogoutAll? || (a.RevokeSession? && OwnLiveRow(s, a.user, a.row))
                            || (a.Refresh? && a.signatureOk && Usable(s, a.token))))
  {
    SignsExactly(s, helpers, a);
    var r := Step(s, helpers, a).1;
    if a.Refresh? && a.signatureOk && Usable(s, a.token) {
      assert SignsFor(s, a, a.token.user);
    } else if !a.Refresh? && !a.RevokeSession? && r.Session? {
      assert SignsFor(s, a, a.user);
    }
  }

  // ---------- a changed password ----------

  // How often a stored version is raised by the requests.
  function Raises(helpers: bool, actions: seq<Action>, user: UserId): nat {
    if actions == [] then 0
    else
      var a := actions[|actions| - 1];
      Raises(helpers, actions[..|actions| - 1], user)
      + if a == ChangePassword(user) || (helpers && a == LogoutAll(user)) then 1 else 0
  }

  lemma {:induction false} VersionCounts(s: State, helpers: bool, actions: seq<Action>, user: UserId)
    requires user in s.accounts
    ensures user in Run(s, helpers, actions).accounts
    ensures Run(s, helpers, actions).accounts[user].authVersion == s.accounts[user].authVersion + Raises(helpers, actions, user)
  {
    if actions != [] {
      var k := |actions| - 1;
      VersionCounts(s, helpers, actions[..k], user);
      VersionsExactly(Run(s, helpers, actions[..k]), helpers, actions[k], user);
    }
  }

  // In every run a stored token is accepted exactly while its row is not revoked and its user's version has
  // never been raised.
  lemma AcceptedExactly(helpers: bool, actions: seq<Action>, i: nat)
    requires i < |Run(EMPTY, helpers, actions).rows|
    ensures var s := Run(EMPTY, helpers, actions);
      var row := s.rows[i];
      && row.token.user in s.accounts
      && (Accepts(s, row.token) <==> !row.revoked && s.accounts[row.token.user].authVersion == 0)
  {
    RunStored(EMPTY, helpers, actions);
    SignedZero(helpers, actions);
    var s := Run(EMPTY, helpers, actions);
    assert forall k | 0 <= k < |s.rows| && s.rows[k].token == s.rows[i].token :: k == i by {
      assert forall k | 0 <= k < |s.rows| :: s.rows[k].token.serial == k;
    }
  }

  // A password change ends every session that its user had: no token signed before it is ever accepted
  // again, with the helpers or without.
  lemma ChangedPasswordEndsSessions(helpers: bool, before: seq<Action>, user: UserId, after: seq<Action>, i: nat)
    requires var s := Run(EMPTY, helpers, before); user in s.accounts && i < |s.rows| && s.rows[i].token.user == user
    ensures var s := Run(EMPTY, helpers, before);
      !Accepts(Run(Step(s, helpers, ChangePassword(user)).0, helpers, after), s.rows[i].token)
  {
    var s := Run(EMPTY, helpers, before);
    var s1 := Step(s, helpers, ChangePassword(user)).0;
    VersionsExactly(s, helpers, ChangePassword(user), user);
    RunStored(EMPTY, helpers, before);
    SignedZero(helpers, before);
    StepStored(s, helpers, ChangePassword(user));
    VersionCounts(s1, helpers, after, user);
  }

  // And nobody else's: the tokens of other users are as good as before.
  lemma ChangedPasswordSparesOthers(s: State, helpers: bool, user: UserId, token: Token)
    requires Stored(s) && token.user != user && token.user in s.accounts
    ensures Accepts(Step(s, helpers, ChangePassword(user)).0, token) <==> Accepts(s, token)
  {
  }
}

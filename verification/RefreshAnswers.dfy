/** What each call of the session service does, in the terms of the rows. */
module RefreshAnswers {
  import opened Common
  import opened RefreshSessions

  /** Neither revoked nor rotated nor expired. */
  predicate CanRefresh(r: Row, now: int) {
    r.revokedAt == None && r.rotatedAt == None && now < r.expiresAt
  }

  /** A session with this token that can be refreshed. */
  ghost predicate Refreshable(rows: seq<Row>, token: nat, now: int) {
    exists i :: 0 <= i < |rows| && rows[i].token == token && CanRefresh(rows[i], now)
  }

  /** No session with this token can ever be refreshed from now on. */
  ghost predicate Dead(rows: seq<Row>, token: nat, now: int) {
    forall i, t :: 0 <= i < |rows| && rows[i].token == token && now <= t ==> !CanRefresh(rows[i], t)
  }

  /** The rows differ in the i-th only. */
  ghost predicate OnlyAt(rows: seq<Row>, rows': seq<Row>, i: nat) {
    |rows| == |rows'| && forall j :: 0 <= j < |rows| && j != i ==> rows'[j] == rows[j]
  }

  lemma LiveIsRefreshable(rows: seq<Row>, token: nat, now: int)
    ensures FindActive(rows, token, now).Some? <==> Refreshable(rows, token, now)
  {
    FoundIsLive(rows, token, now);
    if Refreshable(rows, token, now) {
      var i :| 0 <= i < |rows| && rows[i].token == token && CanRefresh(rows[i], now);
      assert Live(rows[i], now);
    }
  }

  lemma FoundIsIt(s: State, token: nat, now: int, i: nat)
    requires Minted(s) && i < |s.rows| && s.rows[i].token == token && CanRefresh(s.rows[i], now)
    ensures FindActive(s.rows, token, now) == Some(i)
  {
    FoundIsLive(s.rows, token, now);
    assert Live(s.rows[i], now);
  }

  /** A token is exchanged exactly when a session that can be refreshed has it and its user is active. */
  lemma ExchangedExactly(s: State, token: nat, now: int, userActive: bool, limits: Limits)
    ensures Refreshed(s, token, now, userActive, limits).1.Some? <==> Refreshable(s.rows, token, now) && userActive
  {
    LiveIsRefreshable(s.rows, token, now);
  }

  /** An exchange rotates the session and opens another of the same user and family, under a fresh token and for the
      full time. */
  lemma ExchangeOpensSuccessor(s: State, token: nat, now: int, limits: Limits, i: nat)
    requires Minted(s) && i < |s.rows| && s.rows[i].token == token && CanRefresh(s.rows[i], now)
    ensures var (s', successor) := Refreshed(s, token, now, true, limits);
            var r := s.rows[i];
            && successor == Some(s.minted) && s'.minted == s.minted + 1 && |s'.rows| == |s.rows| + 1
            && OnlyAt(s.rows, s'.rows[..|s.rows|], i) && s'.rows[i] == r.(rotatedAt := Some(now))
            && s'.rows[|s.rows|] == Row(r.user, s.minted, r.family, now, now + limits.ttl, None, None)
            && Dead(s'.rows[..|s.rows|], token, now)
  {
    FoundIsIt(s, token, now, i);
    assert forall j :: 0 <= j < |s.rows| && j != i ==> s.rows[j].token != token;
  }

  /** A refresh for an inactive user adds no session; it revokes the one with the token, which is dead from then on. */
  lemma InactiveIsRevoked(s: State, token: nat, now: int, limits: Limits)
    requires Minted(s)
    ensures var (s', successor) := Refreshed(s, token, now, false, limits);
            && successor == None && s'.minted == s.minted && |s'.rows| == |s.rows| && Dead(s'.rows, token, now)
            && (forall i :: 0 <= i < |s.rows| ==>
                  s'.rows[i] == if s.rows[i].token == token && CanRefresh(s.rows[i], now) then s.rows[i].(revokedAt := Some(now)) else s.rows[i])
  {
    FoundIsLive(s.rows, token, now);
    forall i | 0 <= i < |s.rows| && s.rows[i].token == token && CanRefresh(s.rows[i], now) ensures FindActive(s.rows, token, now) == Some(i) {
      FoundIsIt(s, token, now, i);
    }
  }

  /** A refresh with a token that no session can be refreshed by changes nothing. */
  lemma UnknownChangesNothing(s: State, token: nat, now: int, userActive: bool, limits: Limits)
    requires !Refreshable(s.rows, token, now)
    ensures Refreshed(s, token, now, userActive, limits) == (s, None)
  {
    LiveIsRefreshable(s.rows, token, now);
  }

  /** A logout kills the token and touches no other session. */
  lemma LogoutKills(s: State, token: nat, now: int)
    requires Minted(s)
    ensures var s' := LoggedOut(s, token, now);
            && s'.minted == s.minted && |s'.rows| == |s.rows| && Dead(s'.rows, token, now)
            && (forall i :: 0 <= i < |s.rows| ==>
                  s'.rows[i] == if s.rows[i].token == token && CanRefresh(s.rows[i], now) then s.rows[i].(revokedAt := Some(now)) else s.rows[i])
  {
    FoundIsLive(s.rows, token, now);
    forall i | 0 <= i < |s.rows| && s.rows[i].token == token && CanRefresh(s.rows[i], now) ensures FindActive(s.rows, token, now) == Some(i) {
      FoundIsIt(s, token, now, i);
    }
  }

  /** Revoking all sessions of a user revokes those neither revoked nor expired, rotated or not, and no others. */
  lemma RevokeAllKills(rows: seq<Row>, user: string, now: int)
    ensures var rows' := RevokedForUser(rows, user, now);
            && |rows'| == |rows|
            && forall i :: 0 <= i < |rows| ==>
                 && rows'[i] == (if rows[i].user == user && rows[i].revokedAt == None && now < rows[i].expiresAt
                                 then rows[i].(revokedAt := Some(now)) else rows[i])
                 && (rows[i].user == user ==> forall t :: now <= t ==> !CanRefresh(rows'[i], t))
  {
  }

  /** A login opens one session of its user, in a family of its own, under a fresh token and for the full time; of the
      others it changes at most open sessions of the same user, by revoking them. */
  lemma LoginOpens(s: State, user: string, now: int, limits: Limits)
    ensures var s' := LoggedIn(s, user, now, limits);
            && s'.minted == s.minted + 1 && |s'.rows| == |s.rows| + 1
            && s'.rows[|s.rows|] == Row(user, s.minted, s.minted, now, now + limits.ttl, None, None)
            && forall i :: 0 <= i < |s.rows| && s'.rows[i] != s.rows[i] ==>
                 && s.rows[i].user == user && s.rows[i].revokedAt == None && now < s.rows[i].expiresAt
                 && s'.rows[i] == s.rows[i].(revokedAt := Some(now))
  {
    var which := Surplus(s.rows, user, now, limits.maxSessions);
    SurplusIsOpen(s.rows, user, now, limits.maxSessions);
    EachRevoked(s.rows, which, now);
    forall i | 0 <= i < |s.rows| && i in which ensures s.rows[i].user == user && Open(s.rows[i], now) {
      var k :| 0 <= k < |which| && which[k] == i;
    }
  }

  lemma EachRevoked(rows: seq<Row>, which: seq<nat>, now: int)
    ensures |RevokedEach(rows, which, now)| == |rows|
    ensures forall i :: 0 <= i < |rows| ==> RevokedEach(rows, which, now)[i] == if i in which then rows[i].(revokedAt := Some(now)) else rows[i]
  {
    RevokedEachIsLater(rows, which, now);
    forall i | 0 <= i < |rows| ensures RevokedEach(rows, which, now)[i] == if i in which then rows[i].(revokedAt := Some(now)) else rows[i] {
      RevokedOnce(rows, which, now, i);
    }
  }

  lemma {:induction false} RevokedOnce(rows: seq<Row>, which: seq<nat>, now: int, i: nat)
    requires i < |rows|
    ensures |RevokedEach(rows, which, now)| == |rows|
    ensures RevokedEach(rows, which, now)[i] == if i in which then rows[i].(revokedAt := Some(now)) else rows[i]
  {
    if which != [] {
      RevokedOnce(rows, which[..|which| - 1], now, i);
      assert which == which[..|which| - 1] + [which[|which| - 1]];
    }
  }

  /// ---------------------------------------------------------------------
  /// Runs
  /// ---------------------------------------------------------------------

  /** Some committed call of the run refreshed this token for an active user. */
  ghost predicate RefreshedByActive(ops: seq<Timed>, token: nat) {
    exists n :: 0 <= n < |ops| && ops[n].op == Refresh(token, true) && ops[n].commits
  }

  /** In every run a token is recorded as exchanged only for a call whose user is active. */
  lemma {:induction false} OnlyActiveExchange(ops: seq<Timed>, limits: Limits)
    ensures forall token :: token in Run(World(State([], 0), []), ops, limits).exchanged ==> RefreshedByActive(ops, token)
  {
    if ops != [] {
      var front, t := ops[..|ops| - 1], ops[|ops| - 1];
      var before := Run(World(State([], 0), []), front, limits);
      OnlyActiveExchange(front, limits);
      forall token | token in Run(World(State([], 0), []), ops, limits).exchanged ensures RefreshedByActive(ops, token) {
        if token in before.exchanged {
          assert RefreshedByActive(front, token);
          var n :| 0 <= n < |front| && front[n].op == Refresh(token, true) && front[n].commits;
          assert ops[n] == front[n];
        } else {
          ExchangedExactly(before.state, token, t.now, t.op.userActive, limits);
          assert ops[|ops| - 1].op == Refresh(token, true);
        }
      }
    }
  }

  /** A session stays refreshable until it expires, unless its token is refreshed, it is logged out, or its user's
      sessions are all revoked or made room for. */
  predicate Spares(t: Timed, r: Row) {
    match t.op
    case Login(user) => user != r.user
    case Refresh(token, _) => token != r.token
    case Logout(token) => token != r.token
    case RevokeAll(user) => user != r.user
  }

  lemma StepSpares(w: World, t: Timed, limits: Limits, i: nat)
    requires i < |w.state.rows| && (Spares(t, w.state.rows[i]) || !t.commits)
    ensures i < |Step(w, t, limits).state.rows| && Step(w, t, limits).state.rows[i] == w.state.rows[i]
  {
    if t.commits {
      match t.op
      case Login(user) => LoginOpens(w.state, user, t.now, limits);
      case Refresh(token, userActive) => FoundIsLive(w.state.rows, token, t.now);
      case Logout(token) => FoundIsLive(w.state.rows, token, t.now);
      case RevokeAll(user) =>
    }
  }

  /** Over any run of calls that spare it, or are rolled back, a session stays as it is. */
  lemma {:induction false} SparedStays(w: World, ops: seq<Timed>, limits: Limits, i: nat)
    requires i < |w.state.rows| && forall n :: 0 <= n < |ops| ==> Spares(ops[n], w.state.rows[i]) || !ops[n].commits
    ensures i < |Run(w, ops, limits).state.rows| && Run(w, ops, limits).state.rows[i] == w.state.rows[i]
  {
    if ops != [] {
      SparedStays(w, ops[..|ops| - 1], limits, i);
      StepSpares(Run(w, ops[..|ops| - 1], limits), ops[|ops| - 1], limits, i);
    }
  }
}

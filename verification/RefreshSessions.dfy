/** Refresh sessions: login, token rotation, logout and revocation. */
module RefreshSessions {
  import opened Common
  import Sorting

  /** A session row; tokens (kept as hashes) and families are numbers that are never minted twice. */
  datatype Row = Row(
    user: string,
    token: nat,
    family: nat,
    issuedAt: int,
    expiresAt: int,
    revokedAt: Option<int>,
    rotatedAt: Option<int>)

  datatype State = State(rows: seq<Row>, minted: nat)

  datatype Limits = Limits(maxSessions: nat, ttl: nat)

  /** What the limit on sessions counts: rotated sessions too. */
  predicate Open(r: Row, now: int) {
    r.revokedAt.None? && r.expiresAt > now
  }

  /** A session whose token can be exchanged. */
  predicate Live(r: Row, now: int) {
    Open(r, now) && r.rotatedAt.None?
  }

  /// ---------------------------------------------------------------------
  /// Specification
  /// ---------------------------------------------------------------------

  function FindActive(rows: seq<Row>, token: nat, now: int): Option<nat> {
    if rows == [] then None
    else
      var last := |rows| - 1;
      if rows[last].token == token && Live(rows[last], now) then Some(last) else FindActive(rows[..last], token, now)
  }

  lemma {:induction false} FoundIsLive(rows: seq<Row>, token: nat, now: int)
    ensures match FindActive(rows, token, now)
            case Some(i) => i < |rows| && rows[i].token == token && Live(rows[i], now)
            case None => forall i :: 0 <= i < |rows| && rows[i].token == token ==> !Live(rows[i], now)
  {
    if rows != [] {
      FoundIsLive(rows[..|rows| - 1], token, now);
    }
  }

  function Revoked(rows: seq<Row>, i: nat, now: int): seq<Row> {
    if i < |rows| then rows[i := rows[i].(revokedAt := Some(now))] else rows
  }

  function RevokedEach(rows: seq<Row>, which: seq<nat>, now: int): seq<Row> {
    if which == [] then rows else Revoked(RevokedEach(rows, which[..|which| - 1], now), which[|which| - 1], now)
  }

  /** The indices of a user's open sessions. */
  function OpenOf(rows: seq<Row>, user: string, now: int): seq<nat> {
    if rows == [] then []
    else
      var last := |rows| - 1;
      OpenOf(rows[..last], user, now) + if rows[last].user == user && Open(rows[last], now) then [last] else []
  }

  lemma {:induction false} OpenOfIsOpen(rows: seq<Row>, user: string, now: int)
    ensures var r := OpenOf(rows, user, now);
            && Distinct(r)
            && forall k :: 0 <= k < |r| ==> r[k] < |rows| && rows[r[k]].user == user && Open(rows[r[k]], now)
  {
    if rows != [] {
      OpenOfIsOpen(rows[..|rows| - 1], user, now);
    }
  }

  function IssuedAt(rows: seq<Row>, i: nat): int {
    if i < |rows| then rows[i].issuedAt else 0
  }

  function Older(rows: seq<Row>): (nat, nat) -> bool {
    (i: nat, j: nat) => IssuedAt(rows, i) <= IssuedAt(rows, j)
  }

  /** ORDER BY issued_at ASC */
  function ByAge(s: seq<nat>, rows: seq<Row>): seq<nat> {
    Sorting.Sort(s, Older(rows))
  }

  lemma ByAgeKeeps(s: seq<nat>, rows: seq<Row>)
    ensures multiset(ByAge(s, rows)) == multiset(s)
  {
    Sorting.SortKeeps(s, Older(rows));
  }

  ghost predicate AgeSorted(s: seq<nat>, rows: seq<Row>) {
    forall i, j :: 0 <= i < j < |s| ==> IssuedAt(rows, s[i]) <= IssuedAt(rows, s[j])
  }

  lemma ByAgeSorts(s: seq<nat>, rows: seq<Row>)
    ensures AgeSorted(ByAge(s, rows), rows)
  {
    var aged, older := ByAge(s, rows), Older(rows);
    Sorting.SortSorts(s, older);
    forall i, j | 0 <= i < j < |aged| ensures IssuedAt(rows, aged[i]) <= IssuedAt(rows, aged[j]) {
      assert older(aged[i], aged[j]);
    }
  }

  lemma {:induction false} DistinctByCount(s: seq<nat>)
    requires forall x :: multiset(s)[x] <= 1
    ensures Distinct(s)
  {
    if s != [] {
      var front, last := s[..|s| - 1], s[|s| - 1];
      assert s == front + [last];
      assert multiset(s) == multiset(front) + multiset{last};
      forall x ensures multiset(front)[x] <= 1 {
        assert multiset(front)[x] <= multiset(s)[x];
      }
      DistinctByCount(front);
      assert multiset(s)[last] == multiset(front)[last] + 1;
      assert multiset(front)[last] == 0 && last !in front;
    }
  }

  lemma {:induction false} CountOfDistinct(s: seq<nat>, x: nat)
    requires Distinct(s)
    ensures multiset(s)[x] <= 1
  {
    if s != [] {
      var front, last := s[..|s| - 1], s[|s| - 1];
      CountOfDistinct(front, x);
      assert s == front + [last];
      assert multiset(s) == multiset(front) + multiset{last};
      assert last !in front;
    }
  }

  /** Sorting the open sessions neither loses nor repeats one. */
  lemma AgedIsOpen(rows: seq<Row>, user: string, now: int)
    ensures var open := OpenOf(rows, user, now);
            var aged := ByAge(open, rows);
            && |aged| == |open| && Distinct(aged)
            && forall k :: 0 <= k < |aged| ==> aged[k] < |rows| && rows[aged[k]].user == user && Open(rows[aged[k]], now)
  {
    var open := OpenOf(rows, user, now);
    var aged := ByAge(open, rows);
    OpenOfIsOpen(rows, user, now);
    ByAgeKeeps(open, rows);
    assert |aged| == |multiset(aged)| && |multiset(open)| == |open|;
    forall x ensures multiset(aged)[x] <= 1 {
      CountOfDistinct(open, x);
    }
    DistinctByCount(aged);
    forall k | 0 <= k < |aged| ensures aged[k] in open {
      assert aged[k] in multiset(open);
    }
  }

  /** The sessions to revoke so that at most `keep` stay open: the oldest ones. */
  function Surplus(rows: seq<Row>, user: string, now: int, keep: nat): seq<nat> {
    var open := OpenOf(rows, user, now);
    var aged := ByAge(open, rows);
    AgedIsOpen(rows, user, now);
    if |open| <= keep then [] else aged[..|open| - keep]
  }

  function LoggedIn(s: State, user: string, now: int, limits: Limits): State {
    var rows := RevokedEach(s.rows, Surplus(s.rows, user, now, limits.maxSessions), now);
    State(rows + [Row(user, s.minted, s.minted, now, now + limits.ttl, None, None)], s.minted + 1)
  }

  function Rotated(rows: seq<Row>, i: nat, now: int): seq<Row>
    requires i < |rows|
  {
    rows[i := rows[i].(rotatedAt := Some(now))]
  }

  /** The new state, and the token's successor if it was exchanged. */
  function Refreshed(s: State, token: nat, now: int, userActive: bool, limits: Limits): (State, Option<nat>) {
    match FindActive(s.rows, token, now)
    case None => (s, None)
    case Some(i) =>
      FoundIsLive(s.rows, token, now);
      var r := s.rows[i];
      if !userActive then (s.(rows := Revoked(s.rows, i, now)), None)
      else (State(Rotated(s.rows, i, now) + [Row(r.user, s.minted, r.family, now, now + limits.ttl, None, None)], s.minted + 1), Some(s.minted))
  }

  function LoggedOut(s: State, token: nat, now: int): State {
    match FindActive(s.rows, token, now)
    case None => s
    case Some(i) => s.(rows := Revoked(s.rows, i, now))
  }

  /** UPDATE ... SET revoked_at WHERE user_id = user, on open sessions. */
  function RevokedForUser(rows: seq<Row>, user: string, now: int): seq<Row> {
    seq(|rows|, i requires 0 <= i < |rows| =>
      if rows[i].user == user && Open(rows[i], now) then rows[i].(revokedAt := Some(now)) else rows[i])
  }

  lemma RevokedForOneMore(rows: seq<Row>, user: string, now: int, n: nat)
    requires n < |rows|
    ensures var r := if rows[n].user == user && Open(rows[n], now) then rows[n].(revokedAt := Some(now)) else rows[n];
            RevokedForUser(rows[..n + 1], user, now) == RevokedForUser(rows[..n], user, now) + [r]
  {
  }

  /** Revoking all of a user's open sessions leaves none open. */
  lemma {:induction false} RevokedForUserLeavesNone(rows: seq<Row>, user: string, now: int)
    ensures OpenOf(RevokedForUser(rows, user, now), user, now) == []
    decreases |rows|
  {
    if rows != [] {
      var front := rows[..|rows| - 1];
      RevokedForUserLeavesNone(front, user, now);
      assert RevokedForUser(rows, user, now)[..|rows| - 1] == RevokedForUser(front, user, now);
    }
  }

  /// ---------------------------------------------------------------------
  /// The code
  /// ---------------------------------------------------------------------

  class AuthService {
    var rows: seq<Row>
    var minted: nat
    const limits: Limits

    constructor (limits: Limits)
      ensures this.limits == limits && Sessions() == State([], 0)
    {
      this.limits := limits;
      rows, minted := [], 0;
    }

    function Sessions(): State
      reads this
    {
      State(rows, minted)
    }

    /** create_refresh_session; returns the new token. */
    method CreateSession(user: string, family: nat, now: int) returns (token: nat)
      modifies this
      ensures token == old(minted) && minted == old(minted) + 1
      ensures rows == old(rows) + [Row(user, token, family, now, now + limits.ttl, None, None)]
    {
      token := minted;
      minted := minted + 1;
      rows := rows + [Row(user, token, family, now, now + limits.ttl, None, None)];
    }

    /** revoke_oldest_sessions; returns how many were revoked. */
    method RevokeOldest(user: string, keep: nat, now: int) returns (count: nat)
      modifies this`rows
      ensures rows == RevokedEach(old(rows), Surplus(old(rows), user, now, keep), now)
      ensures count == |OpenOf(old(rows), user, now)| - if |OpenOf(old(rows), user, now)| < keep then |OpenOf(old(rows), user, now)| else keep
    {
      var open := OpenOf(rows, user, now);
      var active := ByAge(open, rows);
      AgedIsOpen(rows, user, now);
      if |active| <= keep {
        return 0;
      }
      var surplus := active[..|active| - keep];
      for n := 0 to |surplus|
        invariant rows == RevokedEach(old(rows), surplus[..n], now)
      {
        assert surplus[..n + 1][..n] == surplus[..n];
        rows := Revoked(rows, surplus[n], now);
      }
      assert surplus[..|surplus|] == surplus;
      return |surplus|;
    }

    /** _issue_session: a new family. */
    method IssueSession(user: string, now: int) returns (token: nat)
      modifies this
      ensures Sessions() == LoggedIn(old(Sessions()), user, now, limits) && token == old(minted)
    {
      var _ := RevokeOldest(user, limits.maxSessions, now);
      token := CreateSession(user, minted, now);
    }

    /** refresh_session. */
    method RefreshSession(token: nat, now: int, userActive: bool) returns (successor: Option<nat>)
      modifies this
      ensures (Sessions(), successor) == Refreshed(old(Sessions()), token, now, userActive, limits)
    {
      var found := FindActive(rows, token, now);
      if found.None? {
        return None;
      }
      FoundIsLive(rows, token, now);
      var rs := rows[found.value];
      if rs.rotatedAt.Some? {
        // The replay branch: the lookup never returns a rotated session.
        assert false;
      }
      if !userActive {
        rows := Revoked(rows, found.value, now);
        return None;
      }
      rows := Rotated(rows, found.value, now);
      var next := CreateSession(rs.user, rs.family, now);
      return Some(next);
    }

    /** logout */
    method Logout(token: nat, now: int) returns (ok: bool)
      modifies this`rows
      ensures Sessions() == LoggedOut(old(Sessions()), token, now) && ok == FindActive(old(rows), token, now).Some?
    {
      var found := FindActive(rows, token, now);
      if found.None? {
        return false;
      }
      rows := Revoked(rows, found.value, now);
      return true;
    }

    /** revoke_all_sessions_for_user; returns how many were revoked. None of the user's sessions stays open, and
        no other session changes. */
    method RevokeAllForUser(user: string, now: int) returns (count: nat)
      modifies this`rows
      ensures rows == RevokedForUser(old(rows), user, now)
      ensures OpenOf(rows, user, now) == [] && count == |OpenOf(old(rows), user, now)|
      ensures |rows| == |old(rows)| && forall i :: 0 <= i < |rows| && rows[i] != old(rows)[i] ==>
                old(rows)[i].user == user && Open(old(rows)[i], now) && rows[i] == old(rows)[i].(revokedAt := Some(now))
    {
      count := 0;
      for n := 0 to |rows|
        invariant |rows| == |old(rows)| && rows[n..] == old(rows)[n..]
        invariant rows[..n] == RevokedForUser(old(rows)[..n], user, now)
        invariant count == |OpenOf(old(rows)[..n], user, now)|
      {
        assert old(rows)[..n + 1][..n] == old(rows)[..n];
        assert rows[n] == rows[n..][0] == old(rows)[n..][0] == old(rows)[n];
        ghost var before := rows;
        if rows[n].user == user && Open(rows[n], now) {
          rows := Revoked(rows, n, now);
          count := count + 1;
        }
        RevokedForOneMore(old(rows), user, now, n);
        assert rows[..n + 1] == before[..n] + [rows[n]];
        assert rows[n + 1..] == before[n..][1..];
      }
      assert old(rows)[..|rows|] == old(rows) && rows[..|rows|] == rows;
      RevokedForUserLeavesNone(old(rows), user, now);
    }
  }

  /// ---------------------------------------------------------------------
  /// One current session a family
  /// ---------------------------------------------------------------------

  predicate Current(r: Row) {
    r.revokedAt.None? && r.rotatedAt.None?
  }

  ghost predicate OneCurrent(rows: seq<Row>) {
    forall i, j :: 0 <= i < j < |rows| && rows[i].family == rows[j].family ==> !(Current(rows[i]) && Current(rows[j]))
  }

  /** Tokens are unique, and tokens and families were minted. */
  ghost predicate Minted(s: State) {
    && (forall i, j :: 0 <= i < j < |s.rows| ==> s.rows[i].token != s.rows[j].token)
    && (forall i :: 0 <= i < |s.rows| ==> s.rows[i].token < s.minted && s.rows[i].family < s.minted)
    && (forall i, j :: 0 <= i < j < |s.rows| && s.rows[i].family == s.rows[j].family ==> s.rows[i].user == s.rows[j].user)
  }

  /** The same sessions, some of them possibly revoked or rotated since. */
  ghost predicate Later(rows: seq<Row>, rows': seq<Row>) {
    && |rows| == |rows'|
    && forall i :: 0 <= i < |rows| ==>
         && rows'[i].user == rows[i].user && rows'[i].token == rows[i].token && rows'[i].family == rows[i].family
         && rows'[i].expiresAt == rows[i].expiresAt
         && (rows[i].revokedAt.Some? ==> rows'[i].revokedAt.Some?) && (rows[i].rotatedAt.Some? ==> rows'[i].rotatedAt.Some?)
  }

  lemma {:induction false} RevokedEachIsLater(rows: seq<Row>, which: seq<nat>, now: int)
    ensures Later(rows, RevokedEach(rows, which, now))
  {
    if which != [] {
      RevokedEachIsLater(rows, which[..|which| - 1], now);
    }
  }

  lemma LaterKeepsCurrent(rows: seq<Row>, rows': seq<Row>, minted: nat)
    requires Later(rows, rows') && OneCurrent(rows) && Minted(State(rows, minted))
    ensures OneCurrent(rows') && Minted(State(rows', minted))
  {
    forall i, j | 0 <= i < j < |rows'| && rows'[i].family == rows'[j].family
      ensures !(Current(rows'[i]) && Current(rows'[j])) && rows'[i].user == rows'[j].user
    {
      assert rows[i].family == rows[j].family;
    }
  }

  lemma AddedKeepsCurrent(s: State, r: Row)
    requires OneCurrent(s.rows) && Minted(s) && r.token == s.minted
    requires r.family == s.minted || r.family < s.minted
    requires forall i :: 0 <= i < |s.rows| && s.rows[i].family == r.family ==> !Current(s.rows[i]) && s.rows[i].user == r.user
    ensures OneCurrent(s.rows + [r]) && Minted(State(s.rows + [r], s.minted + 1))
  {
  }

  datatype Op =
    | Login(user: string)
    | Refresh(token: nat, userActive: bool)
    | Logout(token: nat)
    | RevokeAll(user: string)

  /** A call at its time; its transaction is committed or rolled back. The endpoint rolls a refresh back when it
      answers with an error, so an inactive user's revocation does not last. */
  datatype Timed = Timed(op: Op, now: int, commits: bool)

  /** The state and the tokens exchanged so far. */
  datatype World = World(state: State, exchanged: seq<nat>)

  function Step(w: World, t: Timed, limits: Limits): World {
    if !t.commits then w
    else
      match t.op
      case Login(user) => w.(state := LoggedIn(w.state, user, t.now, limits))
      case Refresh(token, userActive) =>
        var (s, successor) := Refreshed(w.state, token, t.now, userActive, limits);
        World(s, if successor.Some? then w.exchanged + [token] else w.exchanged)
      case Logout(token) => w.(state := LoggedOut(w.state, token, t.now))
      case RevokeAll(user) => w.(state := w.state.(rows := RevokedForUser(w.state.rows, user, t.now)))
  }

  function Run(w: World, ops: seq<Timed>, limits: Limits): World {
    if ops == [] then w else Step(Run(w, ops[..|ops| - 1], limits), ops[|ops| - 1], limits)
  }

  ghost predicate IsRotated(rows: seq<Row>, token: nat) {
    exists i :: 0 <= i < |rows| && rows[i].token == token && rows[i].rotatedAt.Some?
  }

  ghost predicate AllRotated(rows: seq<Row>, tokens: seq<nat>) {
    forall k :: 0 <= k < |tokens| ==> IsRotated(rows, tokens[k])
  }

  ghost predicate Inv(w: World) {
    OneCurrent(w.state.rows) && Minted(w.state) && Distinct(w.exchanged) && AllRotated(w.state.rows, w.exchanged)
  }

  lemma LaterKeepsRotated(rows: seq<Row>, rows': seq<Row>, added: seq<Row>, tokens: seq<nat>)
    requires AllRotated(rows, tokens) && Later(rows, rows')
    ensures AllRotated(rows' + added, tokens)
  {
    var all := rows' + added;
    forall k | 0 <= k < |tokens| ensures IsRotated(all, tokens[k]) {
      assert IsRotated(rows, tokens[k]);
      var i :| 0 <= i < |rows| && rows[i].token == tokens[k] && rows[i].rotatedAt.Some?;
      assert all[i] == rows'[i];
    }
  }

  lemma LoginKeepsInv(w: World, user: string, now: int, limits: Limits)
    requires Inv(w)
    ensures Inv(w.(state := LoggedIn(w.state, user, now, limits)))
  {
    var which := Surplus(w.state.rows, user, now, limits.maxSessions);
    var rows := RevokedEach(w.state.rows, which, now);
    var r := Row(user, w.state.minted, w.state.minted, now, now + limits.ttl, None, None);
    assert LoggedIn(w.state, user, now, limits) == State(rows + [r], w.state.minted + 1);
    RevokedEachIsLater(w.state.rows, which, now);
    NewFamilyKeepsInv(w, rows, r);
  }

  lemma NewFamilyKeepsInv(w: World, rows: seq<Row>, r: Row)
    requires Inv(w) && Later(w.state.rows, rows) && r.token == r.family == w.state.minted
    ensures Inv(World(State(rows + [r], w.state.minted + 1), w.exchanged))
  {
    LaterKeepsCurrent(w.state.rows, rows, w.state.minted);
    AddedKeepsCurrent(State(rows, w.state.minted), r);
    LaterKeepsRotated(w.state.rows, rows, [r], w.exchanged);
  }

  lemma LaterKeepsInv(w: World, rows: seq<Row>)
    requires Inv(w) && Later(w.state.rows, rows)
    ensures Inv(w.(state := w.state.(rows := rows)))
  {
    LaterKeepsCurrent(w.state.rows, rows, w.state.minted);
    LaterKeepsRotated(w.state.rows, rows, [], w.exchanged);
    assert rows + [] == rows;
  }

  lemma NotExchangedYet(w: World, token: nat, now: int)
    requires Inv(w) && FindActive(w.state.rows, token, now).Some?
    ensures token !in w.exchanged
  {
    var rows := w.state.rows;
    FoundIsLive(rows, token, now);
    var j := FindActive(rows, token, now).value;
    forall k | 0 <= k < |w.exchanged| ensures w.exchanged[k] != token {
      assert IsRotated(rows, w.exchanged[k]);
      var i :| 0 <= i < |rows| && rows[i].token == w.exchanged[k] && rows[i].rotatedAt.Some?;
      assert i != j;
    }
  }

  /** The exchanged session is rotated and its successor joins the family. */
  lemma ExchangeKeepsCurrent(s: State, i: nat, now: int, r: Row)
    requires OneCurrent(s.rows) && Minted(s) && i < |s.rows| && Current(s.rows[i])
    requires r.token == s.minted && r.family == s.rows[i].family && r.user == s.rows[i].user
    ensures OneCurrent(Rotated(s.rows, i, now) + [r]) && Minted(State(Rotated(s.rows, i, now) + [r], s.minted + 1))
  {
    var rows := Rotated(s.rows, i, now);
    LaterKeepsCurrent(s.rows, rows, s.minted);
    forall k | 0 <= k < |rows| && rows[k].family == r.family ensures !Current(rows[k]) && rows[k].user == r.user {
      assert s.rows[k].family == s.rows[i].family;
    }
    AddedKeepsCurrent(State(rows, s.minted), r);
  }

  lemma ExchangeKeepsInv(w: World, i: nat, now: int, r: Row)
    requires Inv(w) && i < |w.state.rows| && Current(w.state.rows[i]) && w.state.rows[i].token !in w.exchanged
    requires r.token == w.state.minted && r.family == w.state.rows[i].family && r.user == w.state.rows[i].user
    ensures Inv(World(State(Rotated(w.state.rows, i, now) + [r], w.state.minted + 1), w.exchanged + [w.state.rows[i].token]))
  {
    var rows, token := Rotated(w.state.rows, i, now), w.state.rows[i].token;
    ExchangeKeepsCurrent(w.state, i, now, r);
    LaterKeepsRotated(w.state.rows, rows, [r], w.exchanged);
    assert (rows + [r])[i] == rows[i];
    assert IsRotated(rows + [r], token);
  }

  lemma ExchangedState(s: State, token: nat, now: int, limits: Limits)
    requires FindActive(s.rows, token, now).Some?
    ensures var i := FindActive(s.rows, token, now).value;
            && i < |s.rows| && s.rows[i].token == token && Current(s.rows[i])
            && Refreshed(s, token, now, true, limits).0 ==
               State(Rotated(s.rows, i, now) + [Row(s.rows[i].user, s.minted, s.rows[i].family, now, now + limits.ttl, None, None)], s.minted + 1)
  {
    FoundIsLive(s.rows, token, now);
  }

  lemma RefreshKeepsInv(w: World, token: nat, now: int, limits: Limits)
    requires Inv(w) && FindActive(w.state.rows, token, now).Some?
    ensures Inv(World(Refreshed(w.state, token, now, true, limits).0, w.exchanged + [token]))
  {
    ExchangedState(w.state, token, now, limits);
    NotExchangedYet(w, token, now);
    var i := FindActive(w.state.rows, token, now).value;
    var was := w.state.rows[i];
    ExchangeKeepsInv(w, i, now, Row(was.user, w.state.minted, was.family, now, now + limits.ttl, None, None));
  }

  lemma StepKeepsInv(w: World, t: Timed, limits: Limits)
    requires Inv(w)
    ensures Inv(Step(w, t, limits))
  {
    if !t.commits {
      return;
    }
    match t.op
    case Login(user) => LoginKeepsInv(w, user, t.now, limits);
    case Refresh(token, userActive) =>
      var found := FindActive(w.state.rows, token, t.now);
      if found.Some? {
        if userActive {
          RefreshKeepsInv(w, token, t.now, limits);
        } else {
          LaterKeepsInv(w, Revoked(w.state.rows, found.value, t.now));
        }
      }
    case Logout(token) =>
      var found := FindActive(w.state.rows, token, t.now);
      if found.Some? {
        LaterKeepsInv(w, Revoked(w.state.rows, found.value, t.now));
      }
    case RevokeAll(user) => LaterKeepsInv(w, RevokedForUser(w.state.rows, user, t.now));
  }

  /** In every run, each family has at most one session neither revoked nor rotated, and no token is ever
      exchanged twice. */
  lemma {:induction false} TokensAreExchangedOnce(w: World, ops: seq<Timed>, limits: Limits)
    requires Inv(w)
    ensures Inv(Run(w, ops, limits))
    ensures OneCurrent(Run(w, ops, limits).state.rows) && Distinct(Run(w, ops, limits).exchanged)
  {
    if ops != [] {
      TokensAreExchangedOnce(w, ops[..|ops| - 1], limits);
      StepKeepsInv(Run(w, ops[..|ops| - 1], limits), ops[|ops| - 1], limits);
    }
  }

  /** Replaying an exchanged token is refused, and nothing more: no session is revoked, not even those of the
      token's family. */
  lemma ReplayChangesNothing(w: World, token: nat, now: int, userActive: bool, limits: Limits)
    requires Inv(w) && token in w.exchanged
    ensures Refreshed(w.state, token, now, userActive, limits) == (w.state, None)
  {
    if FindActive(w.state.rows, token, now).Some? {
      NotExchangedYet(w, token, now);
    }
  }

  /// ---------------------------------------------------------------------
  /// The limit on sessions
  /// ---------------------------------------------------------------------

  function LiveCount(rows: seq<Row>, user: string, now: int): nat {
    if rows == [] then 0
    else LiveCount(rows[..|rows| - 1], user, now) + if rows[|rows| - 1].user == user && Live(rows[|rows| - 1], now) then 1 else 0
  }

  lemma LiveAdded(rows: seq<Row>, r: Row, user: string, now: int)
    ensures LiveCount(rows + [r], user, now) == LiveCount(rows, user, now) + if r.user == user && Live(r, now) then 1 else 0
  {
    assert (rows + [r])[..|rows|] == rows;
  }

  lemma {:induction false} LiveIsOpen(rows: seq<Row>, user: string, now: int)
    ensures LiveCount(rows, user, now) <= |OpenOf(rows, user, now)|
  {
    if rows != [] {
      LiveIsOpen(rows[..|rows| - 1], user, now);
    }
  }

  /** As time passes and sessions are revoked or rotated, fewer are live. */
  lemma {:induction false} LaterHasFewer(rows: seq<Row>, rows': seq<Row>, user: string, now: int, now': int)
    requires Later(rows, rows') && now <= now'
    ensures LiveCount(rows', user, now') <= LiveCount(rows, user, now)
    decreases |rows|
  {
    if rows != [] {
      LaterHasFewer(rows[..|rows| - 1], rows'[..|rows| - 1], user, now, now');
    }
  }

  lemma {:induction false} RotatedHasOneFewer(rows: seq<Row>, i: nat, now: int)
    requires i < |rows| && Live(rows[i], now)
    ensures LiveCount(Rotated(rows, i, now), rows[i].user, now) == LiveCount(rows, rows[i].user, now) - 1
    decreases |rows|
  {
    var front, last := rows[..|rows| - 1], |rows| - 1;
    if i < last {
      RotatedHasOneFewer(front, i, now);
      assert Rotated(rows, i, now)[..last] == Rotated(front, i, now);
    } else {
      assert Rotated(rows, i, now)[..last] == front;
    }
  }

  /** Revoking one open session leaves one open session fewer. */
  lemma {:induction false} RevokedHasOneFewer(rows: seq<Row>, i: nat, user: string, now: int)
    requires i < |rows| && Open(rows[i], now) && rows[i].user == user
    ensures |OpenOf(Revoked(rows, i, now), user, now)| == |OpenOf(rows, user, now)| - 1
    decreases |rows|
  {
    var front, last := rows[..|rows| - 1], |rows| - 1;
    if i < last {
      RevokedHasOneFewer(front, i, user, now);
      assert Revoked(rows, i, now)[..last] == Revoked(front, i, now);
    } else {
      assert Revoked(rows, i, now)[..last] == front;
    }
  }

  lemma {:induction false} RevokedEachIsOthersUnchanged(rows: seq<Row>, which: seq<nat>, now: int, i: nat)
    requires i < |rows| && i !in which
    ensures |RevokedEach(rows, which, now)| == |rows| && RevokedEach(rows, which, now)[i] == rows[i]
  {
    if which != [] {
      RevokedEachIsOthersUnchanged(rows, which[..|which| - 1], now, i);
    }
  }

  lemma {:induction false} RevokedEachHasFewer(rows: seq<Row>, which: seq<nat>, user: string, now: int)
    requires Distinct(which) && forall k :: 0 <= k < |which| ==> which[k] < |rows| && rows[which[k]].user == user && Open(rows[which[k]], now)
    ensures |OpenOf(RevokedEach(rows, which, now), user, now)| == |OpenOf(rows, user, now)| - |which|
  {
    if which != [] {
      var front, i := which[..|which| - 1], which[|which| - 1];
      RevokedEachHasFewer(rows, front, user, now);
      RevokedEachIsOthersUnchanged(rows, front, now, i);
      RevokedHasOneFewer(RevokedEach(rows, front, now), i, user, now);
    }
  }

  lemma SurplusIsOpen(rows: seq<Row>, user: string, now: int, keep: nat)
    ensures var which := Surplus(rows, user, now, keep);
            && Distinct(which)
            && (forall k :: 0 <= k < |which| ==> which[k] < |rows| && rows[which[k]].user == user && Open(rows[which[k]], now))
            && |OpenOf(rows, user, now)| - |which| == Min(|OpenOf(rows, user, now)|, keep)
  {
    AgedIsOpen(rows, user, now);
  }

  /** After making room, at most `keep` sessions of the user are open. */
  lemma RoomIsMade(rows: seq<Row>, user: string, now: int, keep: nat)
    ensures |OpenOf(RevokedEach(rows, Surplus(rows, user, now, keep), now), user, now)| <= keep
  {
    SurplusIsOpen(rows, user, now, keep);
    RevokedEachHasFewer(rows, Surplus(rows, user, now, keep), user, now);
  }

  ghost predicate WithinLimit(rows: seq<Row>, now: int, limits: Limits) {
    forall u :: LiveCount(rows, u, now) <= limits.maxSessions + 1
  }

  lemma LoginWithinLimit(s: State, user: string, before: int, now: int, limits: Limits)
    requires WithinLimit(s.rows, before, limits) && before <= now
    ensures WithinLimit(LoggedIn(s, user, now, limits).rows, now, limits)
  {
    var which := Surplus(s.rows, user, now, limits.maxSessions);
    var rows := RevokedEach(s.rows, which, now);
    RevokedEachIsLater(s.rows, which, now);
    RoomIsMade(s.rows, user, now, limits.maxSessions);
    LiveIsOpen(rows, user, now);
    forall u ensures LiveCount(LoggedIn(s, user, now, limits).rows, u, now) <= limits.maxSessions + 1 {
      LaterHasFewer(s.rows, rows, u, before, now);
      LiveAdded(rows, Row(user, s.minted, s.minted, now, now + limits.ttl, None, None), u, now);
    }
  }

  lemma RefreshWithinLimit(s: State, token: nat, before: int, now: int, limits: Limits)
    requires WithinLimit(s.rows, before, limits) && before <= now && FindActive(s.rows, token, now).Some?
    ensures WithinLimit(Refreshed(s, token, now, true, limits).0.rows, now, limits)
  {
    FoundIsLive(s.rows, token, now);
    var i := FindActive(s.rows, token, now).value;
    var r := s.rows[i];
    RotatedHasOneFewer(s.rows, i, now);
    forall u ensures LiveCount(Refreshed(s, token, now, true, limits).0.rows, u, now) <= limits.maxSessions + 1 {
      LaterHasFewer(s.rows, s.rows, u, before, now);
      LaterHasFewer(s.rows, Rotated(s.rows, i, now), u, before, now);
      LiveAdded(Rotated(s.rows, i, now), Row(r.user, s.minted, r.family, now, now + limits.ttl, None, None), u, now);
    }
  }

  lemma LaterWithinLimit(rows: seq<Row>, rows': seq<Row>, before: int, now: int, limits: Limits)
    requires WithinLimit(rows, before, limits) && before <= now && Later(rows, rows')
    ensures WithinLimit(rows', now, limits)
  {
    forall u ensures LiveCount(rows', u, now) <= limits.maxSessions + 1 {
      LaterHasFewer(rows, rows', u, before, now);
    }
  }

  lemma StepWithinLimit(w: World, t: Timed, before: int, limits: Limits)
    requires WithinLimit(w.state.rows, before, limits) && before <= t.now
    ensures WithinLimit(Step(w, t, limits).state.rows, t.now, limits)
  {
    var rows := w.state.rows;
    if !t.commits {
      LaterWithinLimit(rows, rows, before, t.now, limits);
      return;
    }
    match t.op
    case Login(user) => LoginWithinLimit(w.state, user, before, t.now, limits);
    case Refresh(token, userActive) =>
      var found := FindActive(rows, token, t.now);
      if found.Some? && userActive {
        RefreshWithinLimit(w.state, token, before, t.now, limits);
      } else {
        LaterWithinLimit(rows, if found.Some? then Revoked(rows, found.value, t.now) else rows, before, t.now, limits);
      }
    case Logout(token) =>
      var found := FindActive(rows, token, t.now);
      LaterWithinLimit(rows, if found.Some? then Revoked(rows, found.value, t.now) else rows, before, t.now, limits);
    case RevokeAll(user) => LaterWithinLimit(rows, RevokedForUser(rows, user, t.now), before, t.now, limits);
  }

  /** The clock does not run backwards. */
  ghost predicate InOrder(ops: seq<Timed>, start: int) {
    && (forall i :: 0 <= i < |ops| ==> start <= ops[i].now)
    && (forall i, j :: 0 <= i < j < |ops| ==> ops[i].now <= ops[j].now)
  }

  function EndTime(ops: seq<Timed>, start: int): int {
    if ops == [] then start else ops[|ops| - 1].now
  }

  /** In every run no user ever has more than the maximum and one live sessions. */
  lemma {:induction false} LiveSessionsAreBounded(w: World, ops: seq<Timed>, start: int, limits: Limits)
    requires WithinLimit(w.state.rows, start, limits) && InOrder(ops, start)
    ensures WithinLimit(Run(w, ops, limits).state.rows, EndTime(ops, start), limits)
  {
    if ops != [] {
      var front := ops[..|ops| - 1];
      LiveSessionsAreBounded(w, front, start, limits);
      StepWithinLimit(Run(w, front, limits), ops[|ops| - 1], EndTime(front, start), limits);
    }
  }

  /** A login that need not make room adds a live session: the bound is met by a user at the maximum whose open
      sessions are all live. */
  lemma BoundIsMet(s: State, user: string, now: int, limits: Limits)
    requires limits.ttl > 0 && |OpenOf(s.rows, user, now)| <= limits.maxSessions
    ensures LiveCount(LoggedIn(s, user, now, limits).rows, user, now) == LiveCount(s.rows, user, now) + 1
  {
    LiveAdded(s.rows, Row(user, s.minted, s.minted, now, now + limits.ttl, None, None), user, now);
  }

  /** The sessions revoked to make room are the oldest: none is younger than an open session that stays. */
  lemma OldestGoFirst(rows: seq<Row>, user: string, now: int, keep: nat, k: nat, j: nat)
    requires k < |Surplus(rows, user, now, keep)|
    requires j in OpenOf(rows, user, now) && j !in Surplus(rows, user, now, keep)
    ensures IssuedAt(rows, Surplus(rows, user, now, keep)[k]) <= IssuedAt(rows, j)
  {
    var open := OpenOf(rows, user, now);
    var aged := ByAge(open, rows);
    ByAgeKeeps(open, rows);
    ByAgeSorts(open, rows);
    AgedIsOpen(rows, user, now);
    assert j in multiset(aged);
    var p :| 0 <= p < |aged| && aged[p] == j;
  }

  lemma {:induction false} RevokedEachRevokes(rows: seq<Row>, which: seq<nat>, now: int, i: nat)
    requires i < |rows| && i in which
    ensures |RevokedEach(rows, which, now)| == |rows| && RevokedEach(rows, which, now)[i].revokedAt.Some?
  {
    var front := which[..|which| - 1];
    RevokedEachIsLater(rows, front, now);
    if which[|which| - 1] != i {
      assert i in front;
      RevokedEachRevokes(rows, front, now, i);
    }
  }

  lemma {:induction false} OpenOfHasAll(rows: seq<Row>, user: string, now: int, i: nat)
    requires i < |rows| && rows[i].user == user && Open(rows[i], now)
    ensures i in OpenOf(rows, user, now)
  {
    if i < |rows| - 1 {
      OpenOfHasAll(rows[..|rows| - 1], user, now, i);
    }
  }

  /** The user's open sessions that are at least as young as session i, i included. */
  function NoOlder(rows: seq<Row>, user: string, now: int, i: nat): set<nat> {
    set j | j in OpenOf(rows, user, now) && IssuedAt(rows, i) <= IssuedAt(rows, j)
  }

  function Elements(s: seq<nat>): set<nat> {
    set x | x in s
  }

  lemma {:induction false} SetOfDistinct(s: seq<nat>)
    requires Distinct(s)
    ensures |Elements(s)| == |s|
  {
    if s != [] {
      var front, last := s[..|s| - 1], s[|s| - 1];
      SetOfDistinct(front);
      forall k | 0 <= k < |front| ensures front[k] != last {
        assert s[k] != s[|s| - 1];
      }
      assert s == front + [last];
      assert Elements(s) == Elements(front) + {last} && last !in Elements(front);
    }
  }

  /** The session at position p, sorted by strictly increasing age, has the sessions from p on no older than it. */
  lemma NoOlderIsRest(rows: seq<Row>, user: string, now: int, aged: seq<nat>, p: nat)
    requires p < |aged| && Distinct(aged) && AgeSorted(aged, rows)
    requires forall j :: j in aged <==> j in OpenOf(rows, user, now)
    requires forall j, k :: j in aged && k in aged && IssuedAt(rows, j) == IssuedAt(rows, k) ==> j == k
    ensures |NoOlder(rows, user, now, aged[p])| == |aged| - p
  {
    var rest := aged[p..];
    forall j ensures j in NoOlder(rows, user, now, aged[p]) <==> j in rest {
      if j in rest {
        var q :| 0 <= q < |rest| && rest[q] == j;
        assert aged[p + q] == j;
      }
      if j in NoOlder(rows, user, now, aged[p]) {
        var q :| 0 <= q < |aged| && aged[q] == j;
        assert q >= p;
        assert rest[q - p] == j;
      }
    }
    SetOfDistinct(rest);
    assert NoOlder(rows, user, now, aged[p]) == Elements(rest);
  }

  /** Issue times of the user's open sessions differ. */
  ghost predicate IssuedApart(rows: seq<Row>, user: string, now: int) {
    forall j, k :: j in OpenOf(rows, user, now) && k in OpenOf(rows, user, now) && IssuedAt(rows, j) == IssuedAt(rows, k) ==> j == k
  }

  lemma AgedHasOpen(rows: seq<Row>, user: string, now: int)
    ensures var aged := ByAge(OpenOf(rows, user, now), rows);
            AgeSorted(aged, rows) && forall j :: j in aged <==> j in OpenOf(rows, user, now)
  {
    var open := OpenOf(rows, user, now);
    var aged := ByAge(open, rows);
    ByAgeKeeps(open, rows);
    ByAgeSorts(open, rows);
    forall j ensures j in aged <==> j in open {
      assert j in multiset(aged) <==> j in multiset(open);
    }
  }

  lemma InPrefix(s: seq<nat>, p: nat, m: nat)
    requires Distinct(s) && p < |s| && m <= |s|
    ensures s[p] in s[..m] <==> p < m
  {
    if p < m {
      assert s[..m][p] == s[p];
    }
  }

  /** An open session is surplus exactly when more than `keep` of the user's open sessions, itself among them, are
      at least as young. */
  lemma SurplusExactly(rows: seq<Row>, user: string, now: int, keep: nat, i: nat)
    requires i in OpenOf(rows, user, now) && IssuedApart(rows, user, now)
    ensures i in Surplus(rows, user, now, keep) <==> |NoOlder(rows, user, now, i)| > keep
  {
    var aged := ByAge(OpenOf(rows, user, now), rows);
    AgedHasOpen(rows, user, now);
    AgedIsOpen(rows, user, now);
    var p :| 0 <= p < |aged| && aged[p] == i;
    NoOlderIsRest(rows, user, now, aged, p);
    if |aged| > keep {
      InPrefix(aged, p, |aged| - keep);
    }
  }

  /** A login ends a live session of its user exactly when it is surplus: when more than the maximum of the user's
      open sessions, itself among them, are at least as young. Rotated sessions are among those counted. */
  lemma LoginEndsExactly(s: State, user: string, now: int, limits: Limits, i: nat)
    requires i < |s.rows| && s.rows[i].user == user && Live(s.rows[i], now)
    ensures |LoggedIn(s, user, now, limits).rows| == |s.rows| + 1
    ensures !Live(LoggedIn(s, user, now, limits).rows[i], now) <==> i in Surplus(s.rows, user, now, limits.maxSessions)
    ensures IssuedApart(s.rows, user, now) ==>
              (!Live(LoggedIn(s, user, now, limits).rows[i], now) <==> |NoOlder(s.rows, user, now, i)| > limits.maxSessions)
  {
    var which := Surplus(s.rows, user, now, limits.maxSessions);
    RevokedEachIsLater(s.rows, which, now);
    OpenOfHasAll(s.rows, user, now, i);
    if i in which {
      RevokedEachRevokes(s.rows, which, now, i);
    } else {
      RevokedEachIsOthersUnchanged(s.rows, which, now, i);
    }
    if IssuedApart(s.rows, user, now) {
      SurplusExactly(s.rows, user, now, limits.maxSessions, i);
    }
  }

  /** Rotated sessions count against the limit: once a user's open sessions exceed it, a login ends the oldest
      one, even if it is live and the user has few live sessions. */
  lemma RotatedSessionsCrowdOut(s: State, user: string, now: int, limits: Limits, i: nat)
    requires i < |s.rows| && s.rows[i].user == user && Live(s.rows[i], now)
    requires forall j :: j in OpenOf(s.rows, user, now) && j != i ==> IssuedAt(s.rows, i) < IssuedAt(s.rows, j)
    requires |OpenOf(s.rows, user, now)| > limits.maxSessions
    ensures |LoggedIn(s, user, now, limits).rows| == |s.rows| + 1 && !Live(LoggedIn(s, user, now, limits).rows[i], now)
  {
    var which := Surplus(s.rows, user, now, limits.maxSessions);
    SurplusIsOpen(s.rows, user, now, limits.maxSessions);
    OpenOfHasAll(s.rows, user, now, i);
    if i !in which {
      OpenOfHasAll(s.rows, user, now, which[0]);
      OldestGoFirst(s.rows, user, now, limits.maxSessions, 0, i);
      assert false;
    }
    LoginEndsExactly(s, user, now, limits, i);
  }

  /// With a limit of two: two logins, two refreshes of the second session, one more login.

  const TWO: Limits := Limits(2, 100)

  const CROWDING: seq<Timed> :=
    [Timed(Login("u"), 0, true), Timed(Login("u"), 1, true), Timed(Refresh(1, true), 2, true), Timed(Refresh(2, true), 3, true)]

  const CROWDED: seq<Row> := [
    Row("u", 0, 0, 0, 100, None, None),
    Row("u", 1, 1, 1, 101, None, Some(2)),
    Row("u", 2, 1, 2, 102, None, Some(3)),
    Row("u", 3, 1, 3, 103, None, None)
  ]

  lemma StepEach(w: World, ops: seq<Timed>, t: Timed, limits: Limits)
    ensures Run(w, ops + [t], limits) == Step(Run(w, ops, limits), t, limits)
  {
    assert (ops + [t])[..|ops|] == ops;
  }

  lemma TwoLogins()
    ensures Run(World(State([], 0), []), [Timed(Login("u"), 0, true), Timed(Login("u"), 1, true)], TWO) ==
            World(State([Row("u", 0, 0, 0, 100, None, None), Row("u", 1, 1, 1, 101, None, None)], 2), [])
  {
    var w := World(State([], 0), []);
    var r0, r1 := Row("u", 0, 0, 0, 100, None, None), Row("u", 1, 1, 1, 101, None, None);
    assert Surplus([], "u", 0, 2) == [];
    assert LoggedIn(State([], 0), "u", 0, TWO) == State([r0], 1);
    assert [r0][..0] == [];
    assert |OpenOf([r0], "u", 1)| == 1;
    assert Surplus([r0], "u", 1, 2) == [];
    assert LoggedIn(State([r0], 1), "u", 1, TWO) == State([r0, r1], 2);
    StepEach(w, [], Timed(Login("u"), 0, true), TWO);
    StepEach(w, [Timed(Login("u"), 0, true)], Timed(Login("u"), 1, true), TWO);
    assert [] + [Timed(Login("u"), 0, true)] == [Timed(Login("u"), 0, true)];
    assert [Timed(Login("u"), 0, true)] + [Timed(Login("u"), 1, true)] == [Timed(Login("u"), 0, true), Timed(Login("u"), 1, true)];
  }

  lemma CrowdedIsReached()
    ensures Run(World(State([], 0), []), CROWDING, TWO).state == State(CROWDED, 4)
  {
    var w := World(State([], 0), []);
    var r0, r1 := CROWDED[0], Row("u", 1, 1, 1, 101, None, None);
    var r2 := Row("u", 2, 1, 2, 102, None, None);
    var two := [Timed(Login("u"), 0, true), Timed(Login("u"), 1, true)];
    TwoLogins();
    var s2, s3 := State([r0, r1], 2), State([r0, CROWDED[1], r2], 3);
    assert FindActive([r0, r1], 1, 2) == Some(1);
    assert Rotated([r0, r1], 1, 2) + [r2] == [r0, CROWDED[1], r2];
    assert Refreshed(s2, 1, 2, true, TWO) == (s3, Some(2));
    assert FindActive([r0, CROWDED[1], r2], 2, 3) == Some(2);
    assert Rotated([r0, CROWDED[1], r2], 2, 3) + [CROWDED[3]] == CROWDED;
    assert Refreshed(s3, 2, 3, true, TWO) == (State(CROWDED, 4), Some(3));
    StepEach(w, two, Timed(Refresh(1, true), 2, true), TWO);
    StepEach(w, two + [Timed(Refresh(1, true), 2, true)], Timed(Refresh(2, true), 3, true), TWO);
    assert two + [Timed(Refresh(1, true), 2, true)] + [Timed(Refresh(2, true), 3, true)] == CROWDING;
  }

  lemma CrowdedOpen()
    ensures OpenOf(CROWDED, "u", 4) == [0, 1, 2, 3] && LiveCount(CROWDED, "u", 4) == 2
  {
    var rows := CROWDED;
    var a, b, c := rows[..1], rows[..2], rows[..3];
    assert c[..2] == b && b[..1] == a && a[..0] == [];
    assert OpenOf(a, "u", 4) == [0] && LiveCount(a, "u", 4) == 1;
    assert OpenOf(b, "u", 4) == [0, 1] && LiveCount(b, "u", 4) == 1;
    assert OpenOf(c, "u", 4) == [0, 1, 2] && LiveCount(c, "u", 4) == 1;
  }

  lemma CrowdedNoOlder()
    ensures IssuedApart(CROWDED, "u", 4) && |NoOlder(CROWDED, "u", 4, 0)| == 4
  {
    CrowdedOpen();
    var open := OpenOf(CROWDED, "u", 4);
    forall j ensures j in open <==> j in {0, 1, 2, 3} {
      assert j in open <==> j in [0, 1, 2, 3];
    }
    forall j | j in open ensures IssuedAt(CROWDED, j) == j {
    }
    assert NoOlder(CROWDED, "u", 4, 0) == {0, 1, 2, 3};
  }

  lemma CrowdedFirstGoes()
    ensures |LoggedIn(State(CROWDED, 4), "u", 4, TWO).rows| == 5 && !Live(LoggedIn(State(CROWDED, 4), "u", 4, TWO).rows[0], 4)
  {
    CrowdedNoOlder();
    LoginEndsExactly(State(CROWDED, 4), "u", 4, TWO, 0);
  }

  /** A reached state in which a user at a limit of two has two live sessions, and a login ends one of them. */
  lemma CrowdingOutIsReached()
    ensures var s := Run(World(State([], 0), []), CROWDING, TWO).state;
            && LiveCount(s.rows, "u", 4) == TWO.maxSessions && |s.rows| == 4 && Live(s.rows[0], 4)
            && |LoggedIn(s, "u", 4, TWO).rows| == 5 && !Live(LoggedIn(s, "u", 4, TWO).rows[0], 4)
  {
    CrowdedIsReached();
    CrowdedOpen();
    CrowdedFirstGoes();
  }
}

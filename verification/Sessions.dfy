/** The dashboard's login sessions: rows with an expiry, deleted at logout or, lazily, by the
    lookup that finds them expired. Times are microseconds. */
module Sessions {
  import opened Telemetry

  const SESSION_TTL: int := 8 * 3600 * 1_000_000

  datatype Row = Row(user: string, created: int, expires: int)

  type Table = map<string, Row>

  /** What a lookup answers. */
  function Answer(t: Table, sid: string, now: int): Option<string> {
    if sid == "" || sid !in t || t[sid].expires < now then None else Some(t[sid].user)
  }

  function LookedUp(t: Table, sid: string, now: int): Table {
    if sid != "" && sid in t && t[sid].expires < now then t - {sid} else t
  }

  function Issued(t: Table, user: string, sid: string, now: int): Table {
    if sid in t then t else t[sid := Row(user, now, now + SESSION_TTL)]
  }

  /** The user a protected route lets in; an empty user name does not count. */
  function Admitted(t: Table, sid: string, now: int): Option<string> {
    if Answer(t, sid, now) == Some("") then None else Answer(t, sid, now)
  }

  datatype LoginResult = BadCredentials | Forbidden | DuplicateKey | LoggedIn(sid: string)

  class SessionStore {
    var sessions: Table

    constructor ()
      ensures sessions == map[]
    {
      sessions := map[];
    }

    /** `sid` is the freshly drawn id; inserting an id that is already there is an error. */
    method IssueSession(user: string, sid: string, now: int) returns (ok: bool)
      modifies this
      ensures sessions == Issued(old(sessions), user, sid, now)
      ensures ok <==> sid !in old(sessions)
    {
      if sid in sessions {
        return false;
      }
      sessions := sessions[sid := Row(user, now, now + SESSION_TTL)];
      return true;
    }

    method RevokeSession(sid: string)
      modifies this
      ensures sessions == old(sessions) - {sid}
    {
      sessions := sessions - {sid};
    }

    method LookupSession(sid: string, now: int) returns (user: Option<string>)
      modifies this
      ensures user == Answer(old(sessions), sid, now)
      ensures sessions == LookedUp(old(sessions), sid, now)
    {
      if sid == "" || sid !in sessions {
        return None;
      }
      var row := sessions[sid];
      if row.expires < now {
        RevokeSession(sid);
        return None;
      }
      return Some(row.user);
    }

    method Login(user: string, authenticated: bool, inGroup: bool, sid: string, now: int) returns (r: LoginResult)
      modifies this
      ensures r == if !authenticated then BadCredentials else if !inGroup then Forbidden
                   else if sid in old(sessions) then DuplicateKey else LoggedIn(sid)
      ensures sessions == if authenticated && inGroup then Issued(old(sessions), user, sid, now) else old(sessions)
    {
      if !authenticated {
        return BadCredentials;
      }
      if !inGroup {
        return Forbidden;
      }
      var ok := IssueSession(user, sid, now);
      return if ok then LoggedIn(sid) else DuplicateKey;
    }

    /** `cookie` is "" when the request carries none. */
    method Logout(cookie: string)
      modifies this
      ensures sessions == if cookie == "" then old(sessions) else old(sessions) - {cookie}
    {
      if cookie != "" {
        RevokeSession(cookie);
      }
    }

    /** The guard of every protected route; `None` is the 401 answer. */
    method CurrentAdmin(cookie: string, now: int) returns (admin: Option<string>)
      modifies this
      ensures admin == Admitted(old(sessions), cookie, now)
      ensures sessions == LookedUp(old(sessions), cookie, now)
    {
      var user := LookupSession(cookie, now);
      if user.None? || user.value == "" {
        return None;
      }
      return user;
    }
  }

  // ----- whole runs -------------------------------------------------------------------

  datatype Command =
    | Login(user: string, authenticated: bool, inGroup: bool, sid: string, now: int)
    | Logout(cookie: string)
    | Lookup(sid: string, now: int)

  function Executed(t: Table, c: Command): Table {
    match c
    case Login(user, authenticated, inGroup, sid, now) =>
      if authenticated && inGroup then Issued(t, user, sid, now) else t
    case Logout(cookie) => if cookie == "" then t else t - {cookie}
    case Lookup(sid, now) => LookedUp(t, sid, now)
  }

  function After(cmds: seq<Command>, n: nat): Table
    requires n <= |cmds|
  {
    if n == 0 then map[] else Executed(After(cmds, n - 1), cmds[n - 1])
  }

  /** Reference: the same table when lookups delete nothing. */
  function Undeleted(cmds: seq<Command>, n: nat): Table
    requires n <= |cmds|
  {
    if n == 0 then map[]
    else if cmds[n - 1].Lookup? then Undeleted(cmds, n - 1)
    else Executed(Undeleted(cmds, n - 1), cmds[n - 1])
  }

  predicate IsLogin(c: Command, sid: string) {
    c.Login? && c.authenticated && c.inGroup && c.sid == sid
  }

  /** Drawn ids are never empty and never drawn twice. */
  ghost predicate FreshIds(cmds: seq<Command>) {
    && (forall i :: 0 <= i < |cmds| && cmds[i].Login? ==> cmds[i].sid != "")
    && forall i, j :: 0 <= i < j < |cmds| && cmds[i].Login? && cmds[j].Login? ==> cmds[i].sid != cmds[j].sid
  }

  /** The clock never shows more than `now` in the first `n` commands and never runs back. */
  ghost predicate ClockUpTo(cmds: seq<Command>, n: nat, now: int) {
    && n <= |cmds|
    && (forall i :: 0 <= i < n && !cmds[i].Logout? ==> cmds[i].now <= now)
    && forall i, j :: 0 <= i < j < n && !cmds[i].Logout? && !cmds[j].Logout? ==> cmds[i].now <= cmds[j].now
  }

  /** A row is missing only when expired, and never differs. */
  ghost predicate LacksOnlyExpired(t: Table, full: Table, now: int) {
    && (forall sid :: sid in t ==> sid in full && t[sid] == full[sid])
    && forall sid :: sid in full && sid !in t ==> full[sid].expires < now
  }

  lemma ExpiredForLonger(t: Table, full: Table, now: int, later: int)
    requires LacksOnlyExpired(t, full, now) && now <= later
    ensures LacksOnlyExpired(t, full, later)
  {
  }

  /** An id not drawn in the first `n` commands has no row. */
  lemma {:induction false} NoRowBeforeLogin(cmds: seq<Command>, n: nat, sid: string)
    requires n <= |cmds| && forall i :: 0 <= i < n ==> !IsLogin(cmds[i], sid)
    ensures sid !in Undeleted(cmds, n)
  {
    if n > 0 {
      NoRowBeforeLogin(cmds, n - 1, sid);
    }
  }

  lemma {:induction false} DeletionSimulates(cmds: seq<Command>, n: nat, now: int)
    requires FreshIds(cmds) && ClockUpTo(cmds, n, now)
    ensures LacksOnlyExpired(After(cmds, n), Undeleted(cmds, n), now)
  {
    if n > 0 {
      var c := cmds[n - 1];
      if c.Logout? {
        DeletionSimulates(cmds, n - 1, now);
      } else {
        DeletionSimulates(cmds, n - 1, c.now);
        if c.Login? {
          NoRowBeforeLogin(cmds, n - 1, c.sid);
        }
        ExpiredForLonger(After(cmds, n), Undeleted(cmds, n), c.now, now);
      }
    }
  }

  /** Lazy deletion is invisible: with a clock that never runs back no later answer changes. */
  lemma LazyDeletionInvisible(cmds: seq<Command>, n: nat, sid: string, now: int)
    requires FreshIds(cmds) && ClockUpTo(cmds, n, now)
    ensures Answer(After(cmds, n), sid, now) == Answer(Undeleted(cmds, n), sid, now)
  {
    DeletionSimulates(cmds, n, now);
  }

  /** Of the first `n` commands the `i`-th issued `sid` and nothing has revoked it since. */
  ghost predicate IssuedAt(cmds: seq<Command>, n: nat, sid: string, i: nat) {
    && i < n <= |cmds| && IsLogin(cmds[i], sid)
    && forall k :: i < k < n ==> cmds[k] != Logout(sid)
  }

  lemma {:induction false} RowExactly(cmds: seq<Command>, n: nat, sid: string)
    requires FreshIds(cmds) && n <= |cmds|
    ensures sid in Undeleted(cmds, n) <==> exists i: nat :: IssuedAt(cmds, n, sid, i)
    ensures forall i: nat :: IssuedAt(cmds, n, sid, i) ==>
      && sid in Undeleted(cmds, n)
      && Undeleted(cmds, n)[sid] == Row(cmds[i].user, cmds[i].now, cmds[i].now + SESSION_TTL)
  {
    if n > 0 {
      RowExactly(cmds, n - 1, sid);
      var c := cmds[n - 1];
      var m: nat := n - 1;
      forall i: nat | IssuedAt(cmds, n, sid, i)
        ensures sid in Undeleted(cmds, n) &&
          Undeleted(cmds, n)[sid] == Row(cmds[i].user, cmds[i].now, cmds[i].now + SESSION_TTL)
      {
        if i == m {
          NoRowBeforeLogin(cmds, m, sid);
        } else {
          assert IssuedAt(cmds, m, sid, i);
        }
      }
      if sid in Undeleted(cmds, n) {
        if IsLogin(c, sid) {
          assert IssuedAt(cmds, n, sid, m);
        } else {
          var i: nat :| IssuedAt(cmds, m, sid, i);
          assert IssuedAt(cmds, n, sid, i);
        }
      }
    }
  }

  /** At time `now`, `sid` belongs to a login of `user` that is neither revoked nor older than
      eight hours. */
  ghost predicate LiveLogin(cmds: seq<Command>, n: nat, sid: string, user: string, now: int, i: nat) {
    IssuedAt(cmds, n, sid, i) && cmds[i].user == user && now - cmds[i].now <= 28_800_000_000
  }

  /** Lookup returns a user exactly when the id was issued by a successful login of that user,
      was not revoked since, and is at most eight hours old. */
  lemma LookupExactly(cmds: seq<Command>, n: nat, sid: string, user: string, now: int)
    requires FreshIds(cmds) && ClockUpTo(cmds, n, now)
    ensures Answer(After(cmds, n), sid, now) == Some(user) <==> exists i: nat :: LiveLogin(cmds, n, sid, user, now, i)
  {
    LazyDeletionInvisible(cmds, n, sid, now);
    RowExactly(cmds, n, sid);
    if Answer(Undeleted(cmds, n), sid, now) == Some(user) {
      var i: nat :| IssuedAt(cmds, n, sid, i);
      assert LiveLogin(cmds, n, sid, user, now, i);
    }
  }

  /** Every request a protected route accepts traces to such a login, and every such login by a
      named user is accepted. */
  lemma AcceptedExactly(cmds: seq<Command>, n: nat, sid: string, now: int)
    requires FreshIds(cmds) && ClockUpTo(cmds, n, now)
    ensures Admitted(After(cmds, n), sid, now).Some? <==>
            exists i: nat :: IssuedAt(cmds, n, sid, i) && now <= cmds[i].now + SESSION_TTL && cmds[i].user != ""
    ensures Admitted(After(cmds, n), sid, now).Some? ==>
            exists i: nat :: LiveLogin(cmds, n, sid, Admitted(After(cmds, n), sid, now).value, now, i)
  {
    var answer := Answer(After(cmds, n), sid, now);
    if answer.Some? {
      LookupExactly(cmds, n, sid, answer.value, now);
      var i: nat :| LiveLogin(cmds, n, sid, answer.value, now, i);
      LoginIsUnique(cmds, n, sid);
    }
    forall i: nat | IssuedAt(cmds, n, sid, i) && now <= cmds[i].now + SESSION_TTL && cmds[i].user != ""
      ensures Admitted(After(cmds, n), sid, now).Some?
    {
      assert LiveLogin(cmds, n, sid, cmds[i].user, now, i);
      LookupExactly(cmds, n, sid, cmds[i].user, now);
    }
  }

  lemma LoginIsUnique(cmds: seq<Command>, n: nat, sid: string)
    requires FreshIds(cmds)
    ensures forall i: nat, j: nat :: IssuedAt(cmds, n, sid, i) && IssuedAt(cmds, n, sid, j) ==> i == j
  {
  }

  /** The login survives every lookup since: none was later than its expiry. */
  ghost predicate Kept(cmds: seq<Command>, n: nat, sid: string, i: nat) {
    IssuedAt(cmds, n, sid, i) && !Purged(cmds, n, sid, i)
  }

  ghost predicate Purged(cmds: seq<Command>, n: nat, sid: string, i: nat) {
    exists k: nat :: PurgedAt(cmds, n, sid, i, k)
  }

  /** The `k`-th command is a lookup that finds the `i`-th's session expired. */
  ghost predicate PurgedAt(cmds: seq<Command>, n: nat, sid: string, i: nat, k: nat) {
    && i < k < n <= |cmds| && cmds[i].Login?
    && cmds[k].Lookup? && cmds[k].sid == sid && cmds[k].now > cmds[i].now + SESSION_TTL
  }

  /** Whatever the clock does, the rows left are those of logins not revoked and not purged. */
  lemma {:induction false} RowsLeftExactly(cmds: seq<Command>, n: nat, sid: string)
    requires FreshIds(cmds) && n <= |cmds|
    ensures sid in After(cmds, n) <==> exists i: nat :: Kept(cmds, n, sid, i)
    ensures forall i: nat :: Kept(cmds, n, sid, i) ==>
      && sid in After(cmds, n)
      && After(cmds, n)[sid] == Row(cmds[i].user, cmds[i].now, cmds[i].now + SESSION_TTL)
  {
    if n > 0 {
      RowsLeftExactly(cmds, n - 1, sid);
      var c := cmds[n - 1];
      var m: nat := n - 1;
      forall i: nat | Kept(cmds, n, sid, i)
        ensures sid in After(cmds, n) &&
          After(cmds, n)[sid] == Row(cmds[i].user, cmds[i].now, cmds[i].now + SESSION_TTL)
      {
        if i == m {
          LoginIsUnique(cmds, n, sid);
        } else {
          KeptBefore(cmds, n, sid, i);
        }
      }
      if sid in After(cmds, n) {
        if IsLogin(c, sid) && sid !in After(cmds, m) {
          assert Kept(cmds, n, sid, m);
        } else {
          var i: nat :| Kept(cmds, m, sid, i);
          KeptBefore(cmds, n, sid, i);
        }
      }
    }
  }

  lemma KeptBefore(cmds: seq<Command>, n: nat, sid: string, i: nat)
    requires i + 1 < n <= |cmds|
    ensures Kept(cmds, n, sid, i) <==>
      Kept(cmds, n - 1, sid, i) && cmds[n - 1] != Logout(sid) && !PurgedAt(cmds, n, sid, i, n - 1)
  {
    if Purged(cmds, n, sid, i) {
      var k: nat :| PurgedAt(cmds, n, sid, i, k);
      assert k < n - 1 ==> PurgedAt(cmds, n - 1, sid, i, k);
    }
    if Purged(cmds, n - 1, sid, i) {
      var k: nat :| PurgedAt(cmds, n - 1, sid, i, k);
      assert PurgedAt(cmds, n, sid, i, k);
    }
  }

  /** Exactly when lazy deletion changes an answer: an earlier lookup had a later clock than the
      session's expiry, and this one does not. */
  lemma DeletionVisibleExactly(cmds: seq<Command>, n: nat, sid: string, now: int)
    requires FreshIds(cmds) && n <= |cmds|
    ensures Answer(After(cmds, n), sid, now) != Answer(Undeleted(cmds, n), sid, now) <==>
            exists i: nat, k: nat ::
              IssuedAt(cmds, n, sid, i) && PurgedAt(cmds, n, sid, i, k) && now <= cmds[i].now + SESSION_TTL
  {
    RowExactly(cmds, n, sid);
    RowsLeftExactly(cmds, n, sid);
    LoginIsUnique(cmds, n, sid);
    if sid in Undeleted(cmds, n) {
      var i: nat :| IssuedAt(cmds, n, sid, i);
      assert sid in After(cmds, n) <==> Kept(cmds, n, sid, i);
    }
  }

  /** A clock that runs back shows the deletion: a lookup in the future ends the session now. */
  lemma ClockBackShowsDeletion(user: string, sid: string)
    requires sid != ""
    ensures var cmds := [Login(user, true, true, sid, 0), Lookup(sid, SESSION_TTL + 1)];
      FreshIds(cmds) && Answer(After(cmds, 2), sid, 1) == None && Answer(Undeleted(cmds, 2), sid, 1) == Some(user)
  {
    var cmds := [Login(user, true, true, sid, 0), Lookup(sid, SESSION_TTL + 1)];
    assert After(cmds, 0) == map[] && Undeleted(cmds, 0) == map[];
    assert After(cmds, 1) == map[sid := Row(user, 0, SESSION_TTL)] == Undeleted(cmds, 1);
  }
}

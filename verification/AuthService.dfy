/**
 The session use cases as the service runs them: load an aggregate, mutate it, write it back.

 Each method is proved to do to the table, and to answer, exactly what its call of SessionProtocol
 does when nothing runs in between; SessionTheorems is about everything running in between.
 The times and the freshly generated values are parameters.
 */
module AuthService {
  import opened Prelude
  import opened SessionDomain
  import opened SessionStore
  import opened SessionProtocol
  import opened SessionAnswers

  /** The call after ListByUser when `listing` is still to be gone through. */
  ghost function Rest(listing: seq<Session>, current: SessionId, now: Time): Call {
    var queue := Others(listing, current, now);
    if queue == [] then Finished(Done) else WriteBack(queue, Done, Failed)
  }

  /** One turn of the loop: skip the first session, or revoke and write it. */
  lemma RestStep(cfg: Config, t: Table, users: Users, listing: seq<Session>, current: SessionId, now: Time, ch: Choice)
    requires listing != []
    ensures RunAlone(cfg, t, users, Rest(listing, current, now), ch) ==
      if listing[0].IsRevoked() || listing[0].id == current
      then RunAlone(cfg, t, users, Rest(listing[1..], current, now), ch)
      else
        var (t', r) := UpdateRow(t, listing[0].Revoke(now));
        if r.Written? then RunAlone(cfg, t', users, Rest(listing[1..], current, now), ch) else (t', Failed)
  {
    if !listing[0].IsRevoked() && listing[0].id != current {
      var queue := Others(listing, current, now);
      assert queue[1..] == Others(listing[1..], current, now);
      Unfold(cfg, t, users, WriteBack(queue, Done, Failed), ch);
    }
  }

  class Service {
    const cfg: Config
    const sessions: Repository
    var users: Users

    constructor (cfg: Config, sessions: Repository, users: Users)
      ensures this.cfg == cfg && this.sessions == sessions && this.users == users
    {
      this.cfg, this.sessions, this.users := cfg, sessions, users;
    }

    /** Errors are swallowed: the request is failing anyway. */
    method RevokeSessionBestEffort(sess: Aggregate, now: Time)
      requires sessions.Valid()
      modifies sess, sessions
      ensures sessions.Valid()
      ensures sess.Row() == old(sess.Row()).Revoke(now)
      ensures sessions.rows == UpdateRow(old(sessions.rows), old(sess.Row()).Revoke(now)).0
    {
      sess.Revoke(now);
      var _ := sessions.Update(sess.Row());
    }

    method Refresh(hash: Hash, now: Time, ch: Choice) returns (o: Outcome)
      requires sessions.Valid()
      modifies sessions
      ensures sessions.Valid()
      ensures (sessions.rows, o) == RunAlone(cfg, old(sessions.rows), users, Call.Refresh(hash, now), ch)
      ensures RefreshAnswer(cfg, old(sessions.rows), users, hash, now, ch, sessions.rows, o)
    {
      RefreshAnswers(cfg, sessions.rows, users, hash, now, ch);
      Unfold(cfg, sessions.rows, users, Call.Refresh(hash, now), ch);
      var found := sessions.GetByRefreshHash(hash);
      if found.Failure? { return InvalidToken; }
      var row := found.value;
      if row.IsRevoked() || row.IsAbsoluteExpired(now) || row.IsRefreshExpired(now) { return InvalidToken; }
      o := RefreshLoaded(row, hash, now, ch);
    }

    /** Steps 3 to 7 of Refresh: the user check, which may end the session, and the rotation in memory. */
    method RefreshLoaded(row: Session, hash: Hash, now: Time, ch: Choice) returns (o: Outcome)
      requires sessions.Valid() && !row.IsRevoked()
      modifies sessions
      ensures sessions.Valid()
      ensures (sessions.rows, o) == RunAlone(cfg, old(sessions.rows), users, RefreshUser(row, hash, now), ch)
    {
      ghost var t := sessions.rows;
      var sess := new Aggregate.Restore(row);
      if row.userId !in users || users[row.userId].Deleted? {
        WriteBackAlone(cfg, t, users, RefreshUser(row, hash, now), row.Revoke(now), InvalidToken, InvalidToken, ch);
        RevokeSessionBestEffort(sess, now);
        return InvalidToken;
      }
      if users[row.userId].Blocked? {
        WriteBackAlone(cfg, t, users, RefreshUser(row, hash, now), row.Revoke(now), UserIsBlocked, UserIsBlocked, ch);
        RevokeSessionBestEffort(sess, now);
        return UserIsBlocked;
      }
      var newRefreshExpiresAt := now + cfg.rotationTTL;
      if newRefreshExpiresAt > row.expiresAt { newRefreshExpiresAt := row.expiresAt; }
      var ok := sess.RotateRefresh(ch.hash, now, newRefreshExpiresAt);
      Unfold(cfg, t, users, RefreshUser(row, hash, now), ch);
      o := PersistRotation(sess, hash, now, ch);
    }

    /** Steps 8 and 9 of Refresh, on whatever the table holds by then: another rotation may have
        come first, and then every session of the user is revoked. */
    method PersistRotation(sess: Aggregate, hash: Hash, now: Time, ghost ch: Choice) returns (o: Outcome)
      requires sessions.Valid()
      modifies sessions
      ensures sessions.Valid()
      ensures (sessions.rows, o) == RunAlone(cfg, old(sessions.rows), users, RefreshRotate(sess.Row(), hash, now), ch)
    {
      Unfold(cfg, sessions.rows, users, RefreshRotate(sess.Row(), hash, now), ch);
      var rotated := sessions.Rotate(sess.Row(), hash);
      if rotated.Failure? {
        if rotated.error.RefreshTokenReused? {
          Unfold(cfg, sessions.rows, users, RefreshReplay(sess.userId, now), ch);
          sessions.RevokeAllForUser(sess.userId, now);
          return TokenReused;
        }
        return Failed;
      }
      return Issued(sess.id, sess.hash, sess.refreshExpiresAt);
    }

    method Logout(id: SessionId, now: Time, ghost ch: Choice) returns (o: Outcome)
      requires sessions.Valid()
      modifies sessions
      ensures sessions.Valid()
      ensures (sessions.rows, o) == RunAlone(cfg, old(sessions.rows), users, Call.Logout(id, now), ch)
      ensures LogoutAnswer(old(sessions.rows), id, now, sessions.rows, o)
    {
      LogoutAnswers(cfg, sessions.rows, users, id, now, ch);
      Unfold(cfg, sessions.rows, users, Call.Logout(id, now), ch);
      var found := sessions.GetByID(id);
      if found.Failure? { return Done; }
      if found.value.IsRevoked() { return Done; }
      var sess := new Aggregate.Restore(found.value);
      sess.Revoke(now);
      WriteBackAlone(cfg, sessions.rows, users, Call.Logout(id, now), sess.Row(), Done, Failed, ch);
      var r := sessions.Update(sess.Row());
      return if r.Success? then Done else Failed;
    }

    method RevokeSession(id: SessionId, caller: UserId, now: Time, ghost ch: Choice) returns (o: Outcome)
      requires sessions.Valid()
      modifies sessions
      ensures sessions.Valid()
      ensures (sessions.rows, o) ==
        RunAlone(cfg, old(sessions.rows), users, Call.RevokeSession(id, caller, now), ch)
      ensures RevokeSessionAnswer(old(sessions.rows), id, caller, now, sessions.rows, o)
    {
      RevokeSessionAnswers(cfg, sessions.rows, users, id, caller, now, ch);
      Unfold(cfg, sessions.rows, users, Call.RevokeSession(id, caller, now), ch);
      var found := sessions.GetByID(id);
      if found.Failure? { return NotFound; }
      if found.value.userId != caller { return NotOwned; }
      if found.value.IsRevoked() { return Done; }
      var sess := new Aggregate.Restore(found.value);
      sess.Revoke(now);
      WriteBackAlone(cfg, sessions.rows, users, Call.RevokeSession(id, caller, now), sess.Row(), Done, Failed, ch);
      var r := sessions.Update(sess.Row());
      return if r.Success? then Done else Failed;
    }

    method RevokeToken(hash: Hash, caller: UserId, now: Time, ghost ch: Choice) returns (o: Outcome)
      requires sessions.Valid()
      modifies sessions
      ensures sessions.Valid()
      ensures (sessions.rows, o) ==
        RunAlone(cfg, old(sessions.rows), users, Call.RevokeToken(hash, caller, now), ch)
      ensures RevokeTokenAnswer(old(sessions.rows), hash, caller, now, sessions.rows, o)
    {
      RevokeTokenAnswers(cfg, sessions.rows, users, hash, caller, now, ch);
      Unfold(cfg, sessions.rows, users, Call.RevokeToken(hash, caller, now), ch);
      var found := sessions.GetByRefreshHash(hash);
      if found.Failure? { return Done; }
      if found.value.userId != caller { return NotOwned; }
      if found.value.IsRevoked() { return Done; }
      var sess := new Aggregate.Restore(found.value);
      sess.Revoke(now);
      WriteBackAlone(cfg, sessions.rows, users, Call.RevokeToken(hash, caller, now), sess.Row(), Done, Failed, ch);
      var r := sessions.Update(sess.Row());
      return if r.Success? then Done else Failed;
    }

    method RevokeAllSessions(caller: UserId, current: SessionId, exceptCurrent: bool, now: Time, ghost ch: Choice)
      returns (o: Outcome, ghost listing: seq<Session>)
      requires sessions.Valid()
      modifies sessions
      ensures sessions.Valid()
      ensures exceptCurrent ==> IsListing(old(sessions.rows), caller, listing)
      ensures (sessions.rows, o) ==
        RunAlone(cfg, old(sessions.rows), users,
                 if exceptCurrent then Call.RevokeOthers(caller, current, now) else Call.RevokeAll(caller, now),
                 ch.(listing := listing))
      ensures if exceptCurrent then RevokeOthersAnswer(old(sessions.rows), caller, current, now, sessions.rows, o)
              else RevokeAllAnswer(old(sessions.rows), caller, now, sessions.rows, o)
    {
      if !exceptCurrent {
        Unfold(cfg, sessions.rows, users, Call.RevokeAll(caller, now), ch.(listing := []));
        RevokeAllAnswers(cfg, sessions.rows, users, caller, now, ch.(listing := []));
        sessions.RevokeAllForUser(caller, now);
        return Done, [];
      }
      ghost var t := sessions.rows;
      o, listing := RevokeOthers(caller, current, now, ch);
      RevokeOthersAnswers(cfg, t, users, caller, current, now, ch.(listing := listing));
    }

    /** The except-current path; `listing` is what ListByUser returned. */
    method RevokeOthers(caller: UserId, current: SessionId, now: Time, ghost ch: Choice)
      returns (o: Outcome, ghost listing: seq<Session>)
      requires sessions.Valid()
      modifies sessions
      ensures sessions.Valid()
      ensures IsListing(old(sessions.rows), caller, listing)
      ensures (sessions.rows, o) ==
        RunAlone(cfg, old(sessions.rows), users, Call.RevokeOthers(caller, current, now), ch.(listing := listing))
    {
      var all := sessions.ListByUser(caller);
      listing := all;
      ghost var choice := ch.(listing := all);
      Unfold(cfg, sessions.rows, users, Call.RevokeOthers(caller, current, now), choice);
      ghost var goal := RunAlone(cfg, sessions.rows, users, Call.RevokeOthers(caller, current, now), choice);
      assert all[0..] == all;
      for i := 0 to |all|
        invariant sessions.Valid()
        invariant RunAlone(cfg, sessions.rows, users, Rest(all[i..], current, now), choice) == goal
      {
        assert all[i..][0] == all[i] && all[i..][1..] == all[i+1..];
        RestStep(cfg, sessions.rows, users, all[i..], current, now, choice);
        if all[i].IsRevoked() { continue; }
        if all[i].id == current { continue; }
        var sess := new Aggregate.Restore(all[i]);
        sess.Revoke(now);
        var r := sessions.Update(sess.Row());
        if r.Failure? { return Failed, all; }
      }
      return Done, all;
    }

    /** `passwordMatches`: a password is on file and the presented one compares equal to it. */
    method Login(user: UserId, passwordMatches: bool, now: Time, device: Device, ch: Choice)
      returns (o: Outcome)
      requires sessions.Valid()
      modifies sessions
      ensures sessions.Valid()
      ensures (sessions.rows, o) ==
        RunAlone(cfg, old(sessions.rows), users, Call.Login(user, passwordMatches, now, device), ch)
      ensures LoginAnswer(cfg, old(sessions.rows), users, user, passwordMatches, now, device, ch, sessions.rows, o)
    {
      LoginAnswers(cfg, sessions.rows, users, user, passwordMatches, now, device, ch);
      Unfold(cfg, sessions.rows, users, Call.Login(user, passwordMatches, now, device), ch);
      if user !in users || users[user].Deleted? { return InvalidCredentials; }
      if users[user].Blocked? { return UserIsBlocked; }
      if !passwordMatches { return InvalidCredentials; }
      Unfold(cfg, sessions.rows, users,
             Mint(cfg.NewSession(ch.id, user, ch.hash, device.userAgent, device.ipAddress, now)), ch);
      o := IssueSession(user, now, device, ch);
    }

    /** The two deadlines and the INSERT shared by every use case that opens a session. */
    method IssueSession(user: UserId, now: Time, device: Device, ch: Choice) returns (o: Outcome)
      requires sessions.Valid()
      modifies sessions
      ensures sessions.Valid()
      ensures var row := cfg.NewSession(ch.id, user, ch.hash, device.userAgent, device.ipAddress, now);
        && sessions.rows == InsertRow(old(sessions.rows), row, user in users).0
        && o == if InsertRow(old(sessions.rows), row, user in users).1.Written?
                then Issued(row.id, row.hash, row.refreshExpiresAt) else Failed
      ensures IssueAnswer(cfg, old(sessions.rows), users, user, now, device, ch, sessions.rows, o)
    {
      var sessionExpiresAt := now + cfg.refreshTTL;
      var refreshExpiresAt := now + cfg.rotationTTL;
      if refreshExpiresAt > sessionExpiresAt { refreshExpiresAt := sessionExpiresAt; }
      var row := Session(ch.id, user, ch.hash, device.userAgent, device.ipAddress, now, sessionExpiresAt,
                         refreshExpiresAt, now, None);
      var r := sessions.Create(row, user in users);
      return if r.Success? then Issued(ch.id, ch.hash, refreshExpiresAt) else Failed;
    }

    /** The last part of ChangePassword and ResetPassword: log out everywhere, then log in here. */
    method RevokeThenIssue(user: UserId, now: Time, device: Device, ch: Choice) returns (o: Outcome)
      requires sessions.Valid()
      modifies sessions
      ensures sessions.Valid()
      ensures (sessions.rows, o) ==
        RunAlone(cfg, old(sessions.rows), users, RevokeBeforeMint(user, now, device), ch)
    {
      Unfold(cfg, sessions.rows, users, RevokeBeforeMint(user, now, device), ch);
      sessions.RevokeAllForUser(user, now);
      Unfold(cfg, sessions.rows, users,
             Mint(cfg.NewSession(ch.id, user, ch.hash, device.userAgent, device.ipAddress, now)), ch);
      o := IssueSession(user, now, device, ch);
    }
  }
}

/**
 What each session call does and answers when it runs alone, said of the table and the users before
 it and the table after it, with no reference to the steps the call is made of.
 */
module SessionAnswers {
  import opened Prelude
  import opened SessionDomain
  import opened SessionStore
  import opened SessionProtocol
  import UserDomain

  /** Some row but that of `id` holds the hash. */
  predicate HeldElsewhere(t: Table, id: SessionId, h: Hash) { exists i :: i in t && i != id && t[i].hash == h }

  /** The session is revoked, at `now` unless it was before; nothing else has changed. */
  ghost predicate RevokedIn(t: Table, id: SessionId, now: Time, t': Table)
    requires id in t
  {
    t' == if t[id].revokedAt.Some? then t else t[id := t[id].(revokedAt := Some(now))]
  }

  // ----- refresh -----------------------------------------------------------------------------

  /** A refresh that presents the hash of session `id`. */
  ghost predicate RefreshOf(cfg: Config, t: Table, users: Users, id: SessionId, now: Time, ch: Choice, t': Table,
                            o: Outcome)
    requires id in t
  {
    var s := t[id];
    var deadline := if now + cfg.rotationTTL < s.expiresAt then now + cfg.rotationTTL else s.expiresAt;
    if s.revokedAt.Some? || s.expiresAt <= now || s.refreshExpiresAt <= now then
      o == InvalidToken && t' == t
    else if s.userId !in users || users[s.userId] == UserDomain.Deleted then
      o == InvalidToken && t' == t[id := s.(revokedAt := Some(now))]
    else if users[s.userId] == UserDomain.Blocked then
      o == UserIsBlocked && t' == t[id := s.(revokedAt := Some(now))]
    else if HeldElsewhere(t, id, ch.hash) then
      o == Failed && t' == t
    else
      && o == Issued(id, ch.hash, deadline)
      && t' == t[id := s.(hash := ch.hash, refreshExpiresAt := deadline, lastSeenAt := now)]
  }

  ghost predicate RefreshAnswer(cfg: Config, t: Table, users: Users, hash: Hash, now: Time, ch: Choice, t': Table,
                                o: Outcome)
  {
    && ((forall id :: id in t ==> t[id].hash != hash) ==> o == InvalidToken && t' == t)
    && forall id :: id in t && t[id].hash == hash ==> RefreshOf(cfg, t, users, id, now, ch, t', o)
  }

  lemma RefreshAnswers(cfg: Config, t: Table, users: Users, hash: Hash, now: Time, ch: Choice)
    requires Consistent(t)
    ensures var (t', o) := RunAlone(cfg, t, users, Refresh(hash, now), ch);
      RefreshAnswer(cfg, t, users, hash, now, ch, t', o)
  {
    Unfold(cfg, t, users, Refresh(hash, now), ch);
    forall id | id in t && t[id].hash == hash
      ensures var (t', o) := RunAlone(cfg, t, users, Refresh(hash, now), ch);
        RefreshOf(cfg, t, users, id, now, ch, t', o)
    {
      assert FindByHash(t, hash) == Some(t[id]);
      if !(t[id].revokedAt.Some? || t[id].expiresAt <= now || t[id].refreshExpiresAt <= now) {
        RefreshLive(cfg, t, users, id, now, ch);
      }
    }
  }

  lemma RefreshLive(cfg: Config, t: Table, users: Users, id: SessionId, now: Time, ch: Choice)
    requires Consistent(t) && id in t && t[id].IsActive(now)
    ensures var (t', o) := RunAlone(cfg, t, users, RefreshUser(t[id], t[id].hash, now), ch);
      RefreshOf(cfg, t, users, id, now, ch, t', o)
  {
    var s := t[id];
    Unfold(cfg, t, users, RefreshUser(s, s.hash, now), ch);
    if s.userId !in users || users[s.userId].Deleted? {
      Unfold(cfg, t, users, WriteBack([s.Revoke(now)], InvalidToken, InvalidToken), ch);
    } else if users[s.userId].Blocked? {
      Unfold(cfg, t, users, WriteBack([s.Revoke(now)], UserIsBlocked, UserIsBlocked), ch);
    } else {
      Unfold(cfg, t, users, RefreshRotate(s.Rotate(ch.hash, now, cfg.SlideWindow(s, now)), s.hash, now), ch);
    }
  }

  /** Alone and with a fresh hash, a refresh answers with a pair exactly for the hash of an unrevoked
      session of an active user, before both of its deadlines. */
  lemma RefreshIssuesIff(cfg: Config, t: Table, users: Users, hash: Hash, now: Time, ch: Choice)
    requires Consistent(t) && forall i :: i in t ==> t[i].hash != ch.hash
    ensures var (t', o) := RunAlone(cfg, t, users, Refresh(hash, now), ch);
      o.Issued? <==>
        exists id :: id in t && t[id].hash == hash && t[id].revokedAt.None? && now < t[id].expiresAt
                     && now < t[id].refreshExpiresAt && t[id].userId in users && users[t[id].userId].Active?
  {
    RefreshAnswers(cfg, t, users, hash, now, ch);
    if id :| id in t && t[id].hash == hash {
      var (t', o) := RunAlone(cfg, t, users, Refresh(hash, now), ch);
      assert RefreshOf(cfg, t, users, id, now, ch, t', o);
    }
  }

  // ----- revocations -------------------------------------------------------------------------

  ghost predicate LogoutAnswer(t: Table, id: SessionId, now: Time, t': Table, o: Outcome) {
    o == Done && if id in t then RevokedIn(t, id, now, t') else t' == t
  }

  ghost predicate RevokeSessionAnswer(t: Table, id: SessionId, caller: UserId, now: Time, t': Table, o: Outcome) {
    if id !in t then o == NotFound && t' == t
    else if t[id].userId != caller then o == NotOwned && t' == t
    else o == Done && RevokedIn(t, id, now, t')
  }

  ghost predicate RevokeTokenAnswer(t: Table, hash: Hash, caller: UserId, now: Time, t': Table, o: Outcome) {
    && ((forall id :: id in t ==> t[id].hash != hash) ==> o == Done && t' == t)
    && forall id :: id in t && t[id].hash == hash ==> RevokeSessionAnswer(t, id, caller, now, t', o)
  }

  /** Every session of the user but `kept` is revoked, at `now` unless it was before; no other has
      changed. */
  ghost predicate AllRevoked(t: Table, user: UserId, kept: Option<SessionId>, now: Time, t': Table) {
    && t'.Keys == t.Keys
    && forall id :: id in t ==>
         t'[id] == if t[id].userId == user && Some(id) != kept && t[id].revokedAt.None?
                   then t[id].(revokedAt := Some(now)) else t[id]
  }

  ghost predicate RevokeAllAnswer(t: Table, caller: UserId, now: Time, t': Table, o: Outcome) {
    o == Done && AllRevoked(t, caller, None, now, t')
  }

  ghost predicate RevokeOthersAnswer(t: Table, caller: UserId, current: SessionId, now: Time, t': Table, o: Outcome) {
    o == Done && AllRevoked(t, caller, Some(current), now, t')
  }

  lemma LogoutAnswers(cfg: Config, t: Table, users: Users, id: SessionId, now: Time, ch: Choice)
    requires Consistent(t)
    ensures var (t', o) := RunAlone(cfg, t, users, Logout(id, now), ch); LogoutAnswer(t, id, now, t', o)
  {
    Unfold(cfg, t, users, Logout(id, now), ch);
    if id in t &&
      !t[id].IsRevoked() { WriteBackAlone(cfg, t, users, Logout(id, now), t[id].Revoke(now), Done, Failed, ch); }
  }

  lemma RevokeSessionAnswers(cfg: Config, t: Table, users: Users, id: SessionId, caller: UserId, now: Time, ch: Choice)
    requires Consistent(t)
    ensures var (t', o) := RunAlone(cfg, t, users, RevokeSession(id, caller, now), ch);
      RevokeSessionAnswer(t, id, caller, now, t', o)
  {
    var call := RevokeSession(id, caller, now);
    Unfold(cfg, t, users, call, ch);
    if id in t && t[id].userId == caller && !t[id].IsRevoked() {
      WriteBackAlone(cfg, t, users, call, t[id].Revoke(now), Done, Failed, ch);
    }
  }

  lemma RevokeTokenAnswers(cfg: Config, t: Table, users: Users, hash: Hash, caller: UserId, now: Time, ch: Choice)
    requires Consistent(t)
    ensures var (t', o) := RunAlone(cfg, t, users, RevokeToken(hash, caller, now), ch);
      RevokeTokenAnswer(t, hash, caller, now, t', o)
  {
    var call := RevokeToken(hash, caller, now);
    Unfold(cfg, t, users, call, ch);
    forall id | id in t && t[id].hash == hash
      ensures var (t', o) := RunAlone(cfg, t, users, call, ch); RevokeSessionAnswer(t, id, caller, now, t', o)
    {
      assert FindByHash(t, hash) == Some(t[id]);
      if t[id].userId == caller && !t[id].IsRevoked() {
        WriteBackAlone(cfg, t, users, call, t[id].Revoke(now), Done, Failed, ch);
      }
    }
  }

  lemma RevokeAllAnswers(cfg: Config, t: Table, users: Users, caller: UserId, now: Time, ch: Choice)
    ensures var (t', o) := RunAlone(cfg, t, users, RevokeAll(caller, now), ch); RevokeAllAnswer(t, caller, now, t', o)
  {
    Unfold(cfg, t, users, RevokeAll(caller, now), ch);
  }

  /** The rows of these copies are theirs, revoked; no other has changed. */
  ghost predicate IsWritten(t: Table, queue: seq<Session>, t': Table) {
    && t'.Keys == t.Keys
    && (forall i :: 0 <= i < |queue| ==> queue[i].id in t && t'[queue[i].id] == queue[i])
    && (forall id :: id in t && (forall i :: 0 <= i < |queue| ==> queue[i].id != id) ==> t'[id] == t[id])
  }

  ghost predicate CopiesOf(t: Table, queue: seq<Session>, now: Time) {
    && (forall i :: 0 <= i < |queue| ==>
          queue[i].id in t && !t[queue[i].id].IsRevoked() && queue[i] == t[queue[i].id].Revoke(now))
    && (forall i, j :: 0 <= i < j < |queue| ==> queue[i].id != queue[j].id)
  }

  lemma WriteFirst(t: Table, queue: seq<Session>, now: Time)
    requires Consistent(t) && queue != [] && CopiesOf(t, queue, now)
    ensures UpdateRow(t, queue[0]) == (t[queue[0].id := queue[0]], Written)
    ensures Consistent(t[queue[0].id := queue[0]]) && CopiesOf(t[queue[0].id := queue[0]], queue[1..], now)
  {
  }

  lemma WrittenFirst(t: Table, queue: seq<Session>, t': Table)
    requires queue != [] && queue[0].id in t && IsWritten(t[queue[0].id := queue[0]], queue[1..], t')
    requires forall i :: 0 < i < |queue| ==> queue[i].id != queue[0].id
    ensures IsWritten(t, queue, t')
  {
    var t1 := t[queue[0].id := queue[0]];
    forall i | 0 <= i < |queue| ensures queue[i].id in t && t'[queue[i].id] == queue[i] {
      if i > 0 { assert queue[1..][i-1] == queue[i]; }
    }
    forall id | id in t && (forall i :: 0 <= i < |queue| ==> queue[i].id != id) ensures t'[id] == t[id] {
      assert forall i :: 0 <= i < |queue[1..]| ==> queue[1..][i] == queue[i+1];
    }
  }

  lemma {:induction false} WritesAll(cfg: Config, t: Table, users: Users, queue: seq<Session>, now: Time, ch: Choice)
    requires Consistent(t) && CopiesOf(t, queue, now)
    ensures var (t', o) := RunAlone(cfg, t, users, WriteBack(queue, Done, Failed), ch);
      o == Done && IsWritten(t, queue, t')
    decreases |queue|
  {
    Unfold(cfg, t, users, WriteBack(queue, Done, Failed), ch);
    if queue != [] {
      WriteFirst(t, queue, now);
      if |queue| > 1 { WritesAll(cfg, t[queue[0].id := queue[0]], users, queue[1..], now, ch); }
      WrittenFirst(t, queue, RunAlone(cfg, t, users, WriteBack(queue, Done, Failed), ch).0);
    }
  }

  lemma {:induction false} OthersAre(listing: seq<Session>, current: SessionId, now: Time, x: Session)
    ensures x in Others(listing, current, now) <==>
      exists s :: s in listing && !s.IsRevoked() && s.id != current && x == s.Revoke(now)
  {
    if listing != [] {
      OthersAre(listing[1..], current, now, x);
      assert listing == [listing[0]] + listing[1..];
    }
  }

  lemma {:induction false} OthersDistinct(listing: seq<Session>, current: SessionId, now: Time)
    requires forall i, j :: 0 <= i < j < |listing| ==> listing[i].id != listing[j].id
    ensures var queue := Others(listing, current, now);
      forall i, j :: 0 <= i < j < |queue| ==> queue[i].id != queue[j].id
  {
    if listing != [] {
      OthersDistinct(listing[1..], current, now);
      var tail := Others(listing[1..], current, now);
      forall i | 0 <= i < |tail| ensures tail[i].id != listing[0].id {
        OthersAre(listing[1..], current, now, tail[i]);
      }
    }
  }

  lemma RevokeOthersAnswers(cfg: Config, t: Table, users: Users, caller: UserId, current: SessionId, now: Time,
                            ch: Choice)
    requires Consistent(t) && IsListing(t, caller, ch.listing)
    ensures var (t', o) := RunAlone(cfg, t, users, RevokeOthers(caller, current, now), ch);
      RevokeOthersAnswer(t, caller, current, now, t', o)
  {
    var queue := Others(ch.listing, current, now);
    Unfold(cfg, t, users, RevokeOthers(caller, current, now), ch);
    OthersDistinct(ch.listing, current, now);
    forall i | 0 <= i < |queue|
      ensures queue[i].id in t && !t[queue[i].id].IsRevoked() && queue[i] == t[queue[i].id].Revoke(now)
    {
      OthersAre(ch.listing, current, now, queue[i]);
    }
    WritesAll(cfg, t, users, queue, now, ch);
    var t' := RunAlone(cfg, t, users, WriteBack(queue, Done, Failed), ch).0;
    Unfold(cfg, t, users, WriteBack([], Done, Failed), ch);
    forall id | id in t
      ensures t'[id] == if t[id].userId == caller && id != current && t[id].revokedAt.None?
                        then t[id].(revokedAt := Some(now)) else t[id]
    {
      if t[id].userId == caller && id != current && t[id].revokedAt.None? {
        OthersAre(ch.listing, current, now, t[id].Revoke(now));
      } else if i :| 0 <= i < |queue| && queue[i].id == id {
        OthersAre(ch.listing, current, now, queue[i]);
      }
    }
  }

  // ----- new sessions ------------------------------------------------------------------------

  /** A session of the user, all new, with both deadlines counted from now; or, when id or hash are in
      use or the user is gone, none. */
  ghost predicate IssueAnswer(cfg: Config, t: Table, users: Users, user: UserId, now: Time, device: Device, ch: Choice,
                              t': Table, o: Outcome)
  {
    var cap := now + cfg.refreshTTL;
    var deadline := if now + cfg.rotationTTL < cap then now + cfg.rotationTTL else cap;
    if ch.id in t || HeldElsewhere(t, ch.id, ch.hash) || user !in users then o == Failed && t' == t
    else
      && o == Issued(ch.id, ch.hash, deadline)
      && t' ==
           t[ch.id := Session(ch.id, user, ch.hash, device.userAgent, device.ipAddress, now, cap, deadline, now, None)]
  }

  ghost predicate LoginAnswer(cfg: Config, t: Table, users: Users, user: UserId, passwordMatches: bool, now: Time,
                              device: Device, ch: Choice, t': Table, o: Outcome)
  {
    if user !in users || users[user] == UserDomain.Deleted then o == InvalidCredentials && t' == t
    else if users[user] == UserDomain.Blocked then o == UserIsBlocked && t' == t
    else if !passwordMatches then o == InvalidCredentials && t' == t
    else IssueAnswer(cfg, t, users, user, now, device, ch, t', o)
  }

  lemma MintAnswers(cfg: Config, t: Table, users: Users, user: UserId, now: Time, device: Device, ch: Choice)
    ensures var row := cfg.NewSession(ch.id, user, ch.hash, device.userAgent, device.ipAddress, now);
      var (t', o) := RunAlone(cfg, t, users, Mint(row), ch); IssueAnswer(cfg, t, users, user, now, device, ch, t', o)
  {
    var row := cfg.NewSession(ch.id, user, ch.hash, device.userAgent, device.ipAddress, now);
    Unfold(cfg, t, users, Mint(row), ch);
  }

  lemma LoginAnswers(cfg: Config, t: Table, users: Users, user: UserId, passwordMatches: bool, now: Time,
                     device: Device,
                     ch: Choice)
    ensures var (t', o) := RunAlone(cfg, t, users, Login(user, passwordMatches, now, device), ch);
      LoginAnswer(cfg, t, users, user, passwordMatches, now, device, ch, t', o)
  {
    Unfold(cfg, t, users, Login(user, passwordMatches, now, device), ch);
    MintAnswers(cfg, t, users, user, now, device, ch);
  }

  /** With a fresh id and hash, a login alone answers with a pair exactly for an active user whose
      password matches; otherwise the table is as it was. */
  lemma LoginIssuesIff(cfg: Config, t: Table, users: Users, user: UserId, passwordMatches: bool, now: Time,
                       device: Device,
                       ch: Choice)
    requires ch.id !in t && forall i :: i in t ==> t[i].hash != ch.hash
    ensures var (t', o) := RunAlone(cfg, t, users, Login(user, passwordMatches, now, device), ch);
      && (o.Issued? <==> user in users && users[user].Active? && passwordMatches)
      && (!o.Issued? ==> t' == t)
  {
    LoginAnswers(cfg, t, users, user, passwordMatches, now, device, ch);
  }

  /** Every session of the user there was is revoked, and the new one is there as after a login. */
  ghost predicate ReplacedAnswer(cfg: Config, t: Table, users: Users, user: UserId, now: Time, device: Device,
                                 ch: Choice,
                                 t': Table, o: Outcome)
  {
    var cap := now + cfg.refreshTTL;
    var deadline := if now + cfg.rotationTTL < cap then now + cfg.rotationTTL else cap;
    var failed := ch.id in t || HeldElsewhere(t, ch.id, ch.hash) || user !in users;
    && o == (if failed then Failed else Issued(ch.id, ch.hash, deadline))
    && t'.Keys == t.Keys + (if failed then {} else {ch.id})
    && AllRevoked(t, user, None, now, map id | id in t && id in t' :: t'[id])
    && (!failed ==>
          t'[ch.id] == Session(ch.id, user, ch.hash, device.userAgent, device.ipAddress, now, cap, deadline, now, None))
  }

  lemma RevokedHoldAlike(t: Table, user: UserId, now: Time, t1: Table, id: SessionId, h: Hash)
    requires AllRevoked(t, user, None, now, t1)
    ensures HeldElsewhere(t1, id, h) <==> HeldElsewhere(t, id, h)
  {
    if i :| i in t && i != id && t[i].hash == h { assert i in t1 && t1[i].hash == h; }
    if i :| i in t1 && i != id && t1[i].hash == h { assert i in t && t[i].hash == h; }
  }

  lemma RevokedThenIssued(cfg: Config, t: Table, t1: Table, users: Users, user: UserId, now: Time, device: Device,
                          ch: Choice, t': Table, o: Outcome)
    requires AllRevoked(t, user, None, now, t1) && IssueAnswer(cfg, t1, users, user, now, device, ch, t', o)
    ensures ReplacedAnswer(cfg, t, users, user, now, device, ch, t', o)
  {
    RevokedHoldAlike(t, user, now, t1, ch.id, ch.hash);
  }

  lemma RevokeThenIssueAnswers(cfg: Config, t: Table, users: Users, user: UserId, now: Time, device: Device, ch: Choice)
    ensures var (t', o) := RunAlone(cfg, t, users, RevokeBeforeMint(user, now, device), ch);
      ReplacedAnswer(cfg, t, users, user, now, device, ch, t', o)
  {
    var (t', o) := RunAlone(cfg, t, users, RevokeBeforeMint(user, now, device), ch);
    Unfold(cfg, t, users, RevokeBeforeMint(user, now, device), ch);
    var t1 := RevokeAllRows(t, user, now);
    MintAnswers(cfg, t1, users, user, now, device, ch);
    RevokedThenIssued(cfg, t, t1, users, user, now, device, ch, t', o);
  }

  /** The session the answer names is the user's only unrevoked one. */
  ghost predicate LeavesOne(t': Table, user: UserId, o: Outcome) {
    o.Issued? ==>
      && o.session in t' && t'[o.session].userId == user && t'[o.session].revokedAt.None?
      && forall id :: id in t' && t'[id].userId == user && t'[id].revokedAt.None? ==> id == o.session
  }

  lemma ReplacedLeavesOne(cfg: Config, t: Table, users: Users, user: UserId, now: Time, device: Device, ch: Choice,
                          t': Table, o: Outcome)
    requires ReplacedAnswer(cfg, t, users, user, now, device, ch, t', o)
    ensures LeavesOne(t', user, o)
  {
  }

  ghost predicate StoredAnswer(cfg: Config, t: Table, users: Users, user: UserId, now: Time, device: Device, ch: Choice,
                               t': Table, o: Outcome)
  {
    if !ch.passwordStored then o == Failed && t' == t else ReplacedAnswer(cfg, t, users, user, now, device, ch, t', o)
  }

  lemma StorePasswordAnswers(cfg: Config, t: Table, users: Users, user: UserId, now: Time, device: Device, ch: Choice)
    ensures var (t', o) := RunAlone(cfg, t, users, StorePassword(user, now, device), ch);
      StoredAnswer(cfg, t, users, user, now, device, ch, t', o)
  {
    Unfold(cfg, t, users, StorePassword(user, now, device), ch);
    RevokeThenIssueAnswers(cfg, t, users, user, now, device, ch);
  }

  ghost predicate ChangePasswordAnswer(cfg: Config, t: Table, users: Users, user: UserId, passwordMatches: bool,
                                       now: Time,
                                       device: Device, ch: Choice, t': Table, o: Outcome)
  {
    if user !in users then o == InvalidToken && t' == t
    else if users[user] == UserDomain.Deleted then o == UserIsDeleted && t' == t
    else if users[user] == UserDomain.Blocked then o == UserIsBlocked && t' == t
    else if !passwordMatches then o == PasswordMismatch && t' == t
    else StoredAnswer(cfg, t, users, user, now, device, ch, t', o)
  }

  lemma ChangePasswordAnswers(cfg: Config, t: Table, users: Users, user: UserId, passwordMatches: bool, now: Time,
                              device: Device, ch: Choice)
    ensures var (t', o) := RunAlone(cfg, t, users, ChangePassword(user, passwordMatches, now, device), ch);
      ChangePasswordAnswer(cfg, t, users, user, passwordMatches, now, device, ch, t', o)
  {
    Unfold(cfg, t, users, ChangePassword(user, passwordMatches, now, device), ch);
    StorePasswordAnswers(cfg, t, users, user, now, device, ch);
  }

  ghost predicate ResetPasswordAnswer(cfg: Config, t: Table, users: Users, user: UserId, codeConsumed: bool, now: Time,
                                      device: Device, ch: Choice, t': Table, o: Outcome)
  {
    if user !in users then o == NotFound && t' == t
    else if users[user] == UserDomain.Deleted then o == UserIsDeleted && t' == t
    else if users[user] == UserDomain.Blocked then o == UserIsBlocked && t' == t
    else if !codeConsumed then o == InvalidCredentials && t' == t
    else StoredAnswer(cfg, t, users, user, now, device, ch, t', o)
  }

  lemma ResetPasswordAnswers(cfg: Config, t: Table, users: Users, user: UserId, codeConsumed: bool, now: Time,
                             device: Device, ch: Choice)
    ensures var (t', o) := RunAlone(cfg, t, users, ResetPassword(user, codeConsumed, now, device), ch);
      ResetPasswordAnswer(cfg, t, users, user, codeConsumed, now, device, ch, t', o)
  {
    Unfold(cfg, t, users, ResetPassword(user, codeConsumed, now, device), ch);
    StorePasswordAnswers(cfg, t, users, user, now, device, ch);
  }

  /** With nothing in between, a password change that answers with a pair was for an active user whose old
      password matched, has stored the new one, and leaves its session as the only unrevoked one. */
  lemma ChangePasswordIssues(cfg: Config, t: Table, users: Users, user: UserId, passwordMatches: bool, now: Time,
                             device: Device, ch: Choice)
    ensures var (t', o) := RunAlone(cfg, t, users, ChangePassword(user, passwordMatches, now, device), ch);
      && LeavesOne(t', user, o)
      && (o.Issued? ==> user in users && users[user].Active? && passwordMatches && ch.passwordStored)
  {
    ChangePasswordAnswers(cfg, t, users, user, passwordMatches, now, device, ch);
    var (t', o) := RunAlone(cfg, t, users, ChangePassword(user, passwordMatches, now, device), ch);
    if o.Issued? { ReplacedLeavesOne(cfg, t, users, user, now, device, ch, t', o); }
  }

  lemma ResetPasswordIssues(cfg: Config, t: Table, users: Users, user: UserId, codeConsumed: bool, now: Time,
                            device: Device, ch: Choice)
    ensures var (t', o) := RunAlone(cfg, t, users, ResetPassword(user, codeConsumed, now, device), ch);
      && LeavesOne(t', user, o)
      && (o.Issued? ==> user in users && users[user].Active? && codeConsumed && ch.passwordStored)
  {
    ResetPasswordAnswers(cfg, t, users, user, codeConsumed, now, device, ch);
    var (t', o) := RunAlone(cfg, t, users, ResetPassword(user, codeConsumed, now, device), ch);
    if o.Issued? { ReplacedLeavesOne(cfg, t, users, user, now, device, ch, t', o); }
  }
}

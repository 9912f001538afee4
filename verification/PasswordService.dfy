/**
 The two use cases that write a password and then log the user out everywhere and in here. They work
 on the users table, the sessions table and, for the reset, the recovery codes; each is proved to do
 on every table what that table's protocol call does when nothing runs in between.
 */
module PasswordService {
  import opened Prelude
  import S = SessionDomain
  import SessionAnswers
  import SessionStore
  import P = SessionProtocol
  import AuthService
  import opened UserDomain
  import UserStore
  import UserProtocol
  import IdentityService
  import UserAnswers
  import RecoveryGenerator
  import RecoveryStore
  import RecoveryProtocol
  import RecoveryService

  /** The sessions' view of a user id. */
  function Owner(id: UserId): S.UserId { S.UserId(id.text) }

  /** The sessions' and the recovery codes' view of the users: who is there, in which status. */
  function Statuses(t: UserStore.Table): P.Users {
    map id | id in t :: Owner(id) := t[id].status
  }

  function StatusesById(t: UserStore.Table): RecoveryProtocol.Users { map id | id in t :: t[id].status }

  lemma StatusesHave(t: UserStore.Table, id: UserId)
    ensures Owner(id) in Statuses(t) <==> id in t
    ensures id in t ==> Statuses(t)[Owner(id)] == t[id].status
  {
    if Owner(id) in Statuses(t) {
      var i :| i in t && Owner(i) == Owner(id);
      assert i == id;
    }
  }

  /** The sessions' side of a stored or failed password write. */
  ghost function AfterStore(cfg: S.Config, t: SessionStore.Table, users: P.Users, user: S.UserId, now: Time,
                            device: P.Device, ch: P.Choice): (SessionStore.Table, P.Outcome)
  {
    if ch.passwordStored then P.RunAlone(cfg, t, users, P.RevokeBeforeMint(user, now, device), ch) else (t, P.Failed)
  }

  lemma ChangeAlone(cfg: S.Config, t: SessionStore.Table, users: P.Users, user: S.UserId, matches: bool, now: Time,
                    device: P.Device, ch: P.Choice)
    ensures P.RunAlone(cfg, t, users, P.ChangePassword(user, matches, now, device), ch) ==
      if user !in users then (t, P.InvalidToken)
      else if users[user].Deleted? then (t, P.UserIsDeleted)
      else if users[user].Blocked? then (t, P.UserIsBlocked)
      else if !matches then (t, P.PasswordMismatch)
      else AfterStore(cfg, t, users, user, now, device, ch)
  {
    P.Unfold(cfg, t, users, P.ChangePassword(user, matches, now, device), ch);
    P.Unfold(cfg, t, users, P.StorePassword(user, now, device), ch);
  }

  lemma ResetAlone(cfg: S.Config, t: SessionStore.Table, users: P.Users, user: S.UserId, spent: bool, now: Time,
                   device: P.Device, ch: P.Choice)
    ensures P.RunAlone(cfg, t, users, P.ResetPassword(user, spent, now, device), ch) ==
      if user !in users then (t, P.NotFound)
      else if users[user].Deleted? then (t, P.UserIsDeleted)
      else if users[user].Blocked? then (t, P.UserIsBlocked)
      else if !spent then (t, P.InvalidCredentials)
      else AfterStore(cfg, t, users, user, now, device, ch)
  {
    P.Unfold(cfg, t, users, P.ResetPassword(user, spent, now, device), ch);
    P.Unfold(cfg, t, users, P.StorePassword(user, now, device), ch);
  }

  /** A code is only redeemed for an active user. */
  lemma RedeemedIsActive(t: RecoveryStore.Tables, users: RecoveryProtocol.Users, user: UserId, typed: string, now: Time,
                         ch: RecoveryProtocol.Choice)
    ensures
      RecoveryProtocol.RunAlone(t, users, RecoveryProtocol.Reset(user, typed, now), ch).1 == RecoveryProtocol.Redeemed
      ==> user in users && users[user].Active?
  {
    RecoveryProtocol.Unfold(t, users, RecoveryProtocol.Reset(user, typed, now), ch);
  }

  /** What the password write answers and leaves. */
  function Stored(t: UserStore.Table, user: UserId, newHash: string, now: Time,
                  uch: UserProtocol.Choice): (UserStore.Table, UserError) {
    UserAnswers.RunAlone(t, UserProtocol.ReplacePassword(user, newHash, now), uch)
  }

  /** The new hash is stored for the user, who was active, and every earlier session is revoked. */
  ghost predicate PasswordReplaced(t: UserStore.Table, user: UserId, newHash: string, t': UserStore.Table,
                                   sessions': SessionStore.Table, o: P.Outcome)
  {
    && SessionAnswers.LeavesOne(sessions', Owner(user), o)
    && (o.Issued? ==>
          && user in t && t[user].status == Active
          && user in t' && t'[user].passwordHash == newHash && t'[user].profile == t[user].profile
          && t'[user].status == Active)
  }

  /** One unused code of the batch found is spent, and nothing else is changed. */
  ghost predicate Spends(t: RecoveryStore.Tables, rch: RecoveryProtocol.Choice, typed: string, now: Time,
                         t': RecoveryStore.Tables)
  {
    rch.found.Some? &&
      var k := (rch.found.value, RecoveryGenerator.HashNormalised(typed));
      k in t.codes && t.codes[k] == None && t' == RecoveryStore.Tables(t.batches, t.codes[k := Some(now)])
  }

  lemma StoredIsReplaced(t: UserStore.Table, user: UserId, newHash: string, now: Time, uch: UserProtocol.Choice)
    requires UserStore.Consistent(t) && Stored(t, user, newHash, now, uch).1.NoError?
    ensures var t' := Stored(t, user, newHash, now, uch).0;
      && user in t && t[user].status == Active
      && user in t' && t'[user].passwordHash == newHash && t'[user].profile == t[user].profile
      && t'[user].status == Active
  {
    UserAnswers.PasswordAnswers(t, user, newHash, now, uch);
  }

  lemma ChangeReplaces(cfg: S.Config, sessions: SessionStore.Table, t: UserStore.Table, user: UserId, matches: bool,
                       newHash: string, now: Time, device: P.Device, uch: UserProtocol.Choice, ch: P.Choice)
    requires UserStore.Consistent(t) && ch.passwordStored == Stored(t, user, newHash, now, uch).1.NoError?
    ensures var (sessions', o) := P.RunAlone(cfg, sessions, Statuses(t),
      P.ChangePassword(Owner(user), matches, now, device), ch);
      && PasswordReplaced(t, user, newHash, Stored(t, user, newHash, now, uch).0, sessions', o)
      && (o.Issued? ==> matches)
  {
    SessionAnswers.ChangePasswordIssues(cfg, sessions, Statuses(t), Owner(user), matches, now, device, ch);
    if ch.passwordStored { StoredIsReplaced(t, user, newHash, now, uch); }
  }

  lemma ResetReplaces(cfg: S.Config, sessions: SessionStore.Table, t: UserStore.Table, user: UserId, spent: bool,
                      newHash: string, now: Time, device: P.Device, uch: UserProtocol.Choice, ch: P.Choice)
    requires UserStore.Consistent(t) && ch.passwordStored == Stored(t, user, newHash, now, uch).1.NoError?
    ensures var (sessions', o) := P.RunAlone(cfg, sessions, Statuses(t),
      P.ResetPassword(Owner(user), spent, now, device), ch);
      && PasswordReplaced(t, user, newHash, Stored(t, user, newHash, now, uch).0, sessions', o)
      && (o.Issued? ==> spent)
  {
    SessionAnswers.ResetPasswordIssues(cfg, sessions, Statuses(t), Owner(user), spent, now, device, ch);
    if ch.passwordStored { StoredIsReplaced(t, user, newHash, now, uch); }
  }

  class Service {
    const cfg: S.Config
    const users: UserStore.Repository
    const sessions: SessionStore.Repository
    const codes: RecoveryStore.Repository

    constructor (cfg: S.Config, users: UserStore.Repository, sessions: SessionStore.Repository,
                 codes: RecoveryStore.Repository)
      ensures this.cfg == cfg && this.users == users && this.sessions == sessions && this.codes == codes
    {
      this.cfg, this.users, this.sessions, this.codes := cfg, users, sessions, codes;
    }

    /** `passwordMatches`: a password is on file and the old one presented compares equal to it. The
        password is written only past all checks, and only its success revokes and issues. */
    method ChangePassword(user: UserId, passwordMatches: bool, newHash: string, now: Time, device: P.Device,
                          uch: UserProtocol.Choice, ch: P.Choice) returns (o: P.Outcome)
      requires users.Valid() && sessions.Valid()
      modifies users, sessions
      ensures users.Valid() && sessions.Valid()
      ensures var stored := Stored(old(users.rows), user, newHash, now, uch);
        && users.rows == (if user in old(users.rows) && old(users.rows)[user].status.Active? && passwordMatches
                          then stored.0 else old(users.rows))
        && (sessions.rows, o) ==
             P.RunAlone(cfg, old(sessions.rows), Statuses(old(users.rows)),
                        P.ChangePassword(Owner(user), passwordMatches, now, device),
                        ch.(passwordStored := stored.1.NoError?))
      ensures PasswordReplaced(old(users.rows), user, newHash, users.rows, sessions.rows, o)
      ensures o.Issued? ==> passwordMatches
    {
      ghost var sch := ch.(passwordStored := Stored(users.rows, user, newHash, now, uch).1.NoError?);
      StatusesHave(users.rows, user);
      ChangeReplaces(cfg, sessions.rows, users.rows, user, passwordMatches, newHash, now, device, uch, sch);
      ChangeAlone(cfg, sessions.rows, Statuses(users.rows), Owner(user), passwordMatches, now, device, sch);
      if user !in users.rows { return P.InvalidToken; }
      if users.rows[user].status == Deleted { return P.UserIsDeleted; }
      if users.rows[user].status == Blocked { return P.UserIsBlocked; }
      if !passwordMatches { return P.PasswordMismatch; }
      o := StoreThenIssue(user, newHash, now, device, uch, ch);
    }

    /** The etag-locked write, and after its success the revocations and the new session. */
    method StoreThenIssue(user: UserId, newHash: string, now: Time, device: P.Device, uch: UserProtocol.Choice,
                          ch: P.Choice)
      returns (o: P.Outcome)
      requires users.Valid() && sessions.Valid()
      modifies users, sessions
      ensures users.Valid() && sessions.Valid()
      ensures var stored := Stored(old(users.rows), user, newHash, now, uch);
        && users.rows == stored.0
        && (sessions.rows, o) ==
             AfterStore(cfg, old(sessions.rows), Statuses(old(users.rows)), Owner(user), now, device,
                        ch.(passwordStored := stored.1.NoError?))
    {
      var statuses := Statuses(users.rows);
      var ok := StorePassword(user, newHash, now, uch);
      o := IssueIf(ok, statuses, user, now, device, ch);
    }

    method StorePassword(user: UserId, newHash: string, now: Time, uch: UserProtocol.Choice) returns (ok: bool)
      requires users.Valid()
      modifies users
      ensures users.Valid()
      ensures var stored := Stored(old(users.rows), user, newHash, now, uch);
        users.rows == stored.0 && ok == stored.1.NoError?
    {
      var identity := new IdentityService.Service(users);
      var e := identity.StorePassword(user, newHash, now, uch);
      ok := e.NoError?;
    }

    method IssueIf(ok: bool, statuses: P.Users, user: UserId, now: Time, device: P.Device, ch: P.Choice)
      returns (o: P.Outcome)
      requires sessions.Valid()
      modifies sessions
      ensures sessions.Valid()
      ensures (sessions.rows, o) ==
        AfterStore(cfg, old(sessions.rows), statuses, Owner(user), now, device, ch.(passwordStored := ok))
    {
      if !ok { return P.Failed; }
      var auth := new AuthService.Service(cfg, sessions, statuses);
      o := auth.RevokeThenIssue(Owner(user), now, device, ch.(passwordStored := true));
    }

    /** The code is spent first, and is not given back when a later step fails. */
    method ResetPassword(user: UserId, typed: string, newHash: string, now: Time, device: P.Device,
                         uch: UserProtocol.Choice, ch: P.Choice)
      returns (o: P.Outcome, ghost rch: RecoveryProtocol.Choice)
      requires users.Valid() && sessions.Valid()
      modifies users, sessions, codes
      ensures users.Valid() && sessions.Valid()
      ensures user in old(users.rows) && old(users.rows)[user].status.Active? ==>
        RecoveryStore.IsActiveBatch(old(codes.db), user, rch.found)
      ensures var redeemed := RecoveryProtocol.RunAlone(old(codes.db), StatusesById(old(users.rows)),
                                                        RecoveryProtocol.Reset(user, typed, now), rch);
        var spent := redeemed.1 == RecoveryProtocol.Redeemed;
        var stored := Stored(old(users.rows), user, newHash, now, uch);
        && codes.db == redeemed.0
        && users.rows == (if spent then stored.0 else old(users.rows))
        && (sessions.rows, o) ==
             P.RunAlone(cfg, old(sessions.rows), Statuses(old(users.rows)),
                        P.ResetPassword(Owner(user), spent, now, device),
                        ch.(passwordStored := stored.1.NoError?))
      ensures PasswordReplaced(old(users.rows), user, newHash, users.rows, sessions.rows, o)
      ensures o.Issued? ==> Spends(old(codes.db), rch, typed, now, codes.db)
    {
      var spent;
      spent, rch := Redeem(user, typed, now);
      o := ResetOnceSpent(user, spent, newHash, now, device, uch, ch);
    }

    /** What the reset does about the user and the sessions, given whether the code was spent. */
    method ResetOnceSpent(user: UserId, spent: bool, newHash: string, now: Time, device: P.Device,
                          uch: UserProtocol.Choice, ch: P.Choice) returns (o: P.Outcome)
      requires users.Valid() && sessions.Valid()
      requires spent ==> user in users.rows && users.rows[user].status.Active?
      modifies users, sessions
      ensures users.Valid() && sessions.Valid()
      ensures var stored := Stored(old(users.rows), user, newHash, now, uch);
        && users.rows == (if spent then stored.0 else old(users.rows))
        && (sessions.rows, o) ==
             P.RunAlone(cfg, old(sessions.rows), Statuses(old(users.rows)),
                        P.ResetPassword(Owner(user), spent, now, device),
                        ch.(passwordStored := stored.1.NoError?))
      ensures PasswordReplaced(old(users.rows), user, newHash, users.rows, sessions.rows, o) && (o.Issued? ==> spent)
    {
      ghost var sch := ch.(passwordStored := Stored(users.rows, user, newHash, now, uch).1.NoError?);
      StatusesHave(users.rows, user);
      ResetReplaces(cfg, sessions.rows, users.rows, user, spent, newHash, now, device, uch, sch);
      ResetAlone(cfg, sessions.rows, Statuses(users.rows), Owner(user), spent, now, device, sch);
      if user !in users.rows { return P.NotFound; }
      if users.rows[user].status == Deleted { return P.UserIsDeleted; }
      if users.rows[user].status == Blocked { return P.UserIsBlocked; }
      if !spent { return P.InvalidCredentials; }
      o := StoreThenIssue(user, newHash, now, device, uch, ch);
    }

    method Redeem(user: UserId, typed: string, now: Time) returns (spent: bool, ghost rch: RecoveryProtocol.Choice)
      modifies codes
      ensures var redeemed := RecoveryProtocol.RunAlone(old(codes.db), StatusesById(users.rows),
                                                        RecoveryProtocol.Reset(user, typed, now), rch);
        codes.db == redeemed.0 && spent == (redeemed.1 == RecoveryProtocol.Redeemed)
      ensures spent ==> user in users.rows && users.rows[user].status.Active?
      ensures spent ==> Spends(old(codes.db), rch, typed, now, codes.db)
      ensures user in users.rows && users.rows[user].status.Active? ==>
        RecoveryStore.IsActiveBatch(old(codes.db), user, rch.found)
    {
      var recovery := new RecoveryService.Service(codes, StatusesById(users.rows));
      var answer;
      answer, rch := recovery.RedeemCode(user, typed, now);
      RedeemedIsActive(old(codes.db), StatusesById(users.rows), user, typed, now, rch);
      spent := answer == RecoveryProtocol.Redeemed;
    }
  }
}

# SSO core: Dafny model and proofs

A model of the stateful cores of the single sign-on service, with proofs of what they guarantee.
`dafny verify dfyconfig.toml` checks the whole project.

## What is modelled

Tables are maps. Each repository call is one atomic step, and so is each of the two queries that load
a role and each limit the interceptor evaluates; everything else may happen between two steps. A use
case is modelled twice: as a class method in the shape of the source (load, mutate the aggregate,
write back), and as a protocol call that is suspended between its repository calls. The method is
proved to do exactly what the protocol call does when nothing runs in between (`RunAlone`); the
theorems are about every interleaving of any number of protocol calls. What a call run alone does and
answers is also stated outright, of the tables before and after it, in the modules named `Answers`; the
methods ensure it.

| files | subject |
|---|---|
| `SessionDomain`, `SessionStore`, `SessionProtocol`, `SessionInvariant`, `SessionTheorems`, `SessionEffects`, `SessionStaleWrite`, `SessionSurvivors`, `SessionAuthority`, `SessionAnswers`, `AuthService`, `RefreshChain`, `TokenCheck`, `SessionPager` | sessions, refresh tokens, revocation, the two acceptance checks, the session list |
| `UserDomain`, `UserStore`, `UserProtocol`, `UserSerial`, `UserLostUpdate`, `UserAnswers`, `IdentityService` | optimistic locking of users |
| `PasswordService` | password change and reset across users, sessions and recovery codes |
| `RateLimiter`, `RateLimitConfig`, `RateLimitInterceptor`, `RateLimitTraffic` | token buckets, idle eviction, the interceptor |
| `Keyset`, `UserList`, `RoleList`, `Like`, `Ordering` | SQL lists: cursors, filters, search |
| `AccessStore`, `AccessCheck`, `AccessProtocol`, `AccessCheckRun`, `AccessAnswers`, `AccessAuthority`, `AccessService` | role assignments and permission checks |
| `RecoveryGenerator`, `RecoveryStore`, `RecoveryProtocol`, `RecoveryRace`, `RecoveryAnswers`, `RecoveryService` | recovery codes |
| `RoleDomain`, `RoleStore`, `RoleProtocol`, `RoleEtags`, `RoleRaces`, `RoleAnswers`, `RoleService` | roles and their permission lists |

A run is a sequence of worlds that starts empty; each step begins a call, advances one by a
repository call, aborts one (a crash or a lost connection), or changes users, apps or roles from
outside. History variables (which hash was minted for which session, which etag named which
version, which codes were printed) are read by no step except to say what "freshly generated" means.

Assumptions:

- Ids, etags and refresh-token hashes are opaque and fresh when generated; UUIDs are in canonical
  spelling. SHA-256 is injective. Tokens are verified outside the model, which starts from the claims.
- Times are integers in nanoseconds; the clock never returns the zero time, so "no revocation" is
  `None`. Clock readings and generated values are parameters.
- The number of affected rows is the number of matched rows. See "Left out" for the answers that rest
  on this.
- A rate limiter is an exact token bucket over the reals that starts full; a reservation may go into
  debt and cancelling it under the lock gives the token back. One instant is read per Allow. Instants
  read by calls never go back; a sweep may hold an older instant than the calls it follows. Of the
  floating-point idle formula only a relative error below one quarter is assumed.
- Text compares byte by byte, in ORDER BY, in cursors and in unique keys as in Go; in LIKE and IN as the
  collation has it, which is left open. LIKE compares character by character. Upper-casing is that of Go for ASCII letters and
  for the two other letters whose capital is ASCII, U+0131 and U+017F.

## Where the code and its documentation differ

- The refresh code cites "OAuth2 BCP 4.13" for the replay response; it is section 4.14.2 of RFC 9700.
- A comment in the idle-eviction formula promises twice the refill time. For an rps so small that this
  exceeds 2^63 ns the float conversion is out of range (on amd64 the result is the minimum integer),
  the floor then makes it one minute, and eviction refills buckets early.
  `RateLimitConfig.SweepsAreInvisibleIff` and `WindowsAreBoundedIff` give the exact condition.
- Comments in the access service say that blocked and deleted users do not contribute to permission
  checks; CheckPermission only checks that the user exists, and the model does the same
  (`AccessCheck.BlockedUserIsAllowed`).
- Generating recovery codes is said to keep one active batch per user; two concurrent calls leave two
  (`RecoveryRace.RacingGeneratesLeaveTwo`), and `RecoveryProtocol.SingleActiveStep` says exactly when
  it is kept.
- Etags are meant to prevent lost updates, but lifecycle and wildcard writes save the whole user row
  without one. A committed write undoes nothing exactly when the row agrees, outside of what it sets,
  with what it loaded (`UserSerial.NothingLostIff`); while all unconditional writes to a user find the
  etag they loaded, none is lost (`VersionsAreReplayed`). `UserLostUpdate.AnyActiveUserCanLoseAnUpdate`
  is the run that loses one.
- The same for roles, where Disable and Enable also put back the permission list they loaded
  (`RoleProtocol.NothingLostIff`, `RoleRaces.DisableCanRestorePermissions`). A role is loaded by two
  queries outside a transaction, so a load may show permissions its etag does not stand for
  (`RoleEtags.LoadIsVersionIff`), and a repeated Disable can store them under that etag
  (`RoleRaces.TornDisableReusesItsEtag`). Etags name roles exactly as long as no unchanged write does
  that (`RoleEtags.EtagsNameRolesIff`).
- A comment calls the session made by ChangePassword the only one left active. Left are the sessions
  inserted after the revocation (`SessionSurvivors.SurvivorsAreLater`), and a Login that had checked the
  old password can be among them (`LoginCanOutlivePasswordChange`).
- RevokeToken answers success for an unknown token. "Done means revoked" holds for it exactly when its
  lookup finds the session (`SessionEffects.DoneMeansTokenRevoked`, `UnknownTokenRevokesNothing`); a
  rotation just before makes it miss (`SessionStaleWrite.RevokeTokenCanMissItsSession`).

## Model

| member | source | states |
|---|---|---|
| `SessionDomain.Aggregate.Revoke` | internal/modules/session/internal/domain/session.go:208-213 | Sets the revocation time only if there is none yet; afterwards the session is revoked and nothing else has changed |
| `SessionDomain.Aggregate.TouchLastSeen` | internal/modules/session/internal/domain/session.go:219-224 | Moves last_seen_at of an unrevoked session and leaves a revoked one alone |
| `SessionDomain.Aggregate.RotateRefresh` | internal/modules/session/internal/domain/session.go:234-242 | Rejects a revoked session unchanged; otherwise replaces hash, sliding deadline and last_seen_at and keeps owner, creation time, hard cap and revocation |
| `SessionStore.NewerIsOrder` | internal/modules/session/internal/mariadb/dbgen/sessions.sql.go:98-102 | issued_at DESC, id DESC is a strict total order on distinct sessions |
| `SessionStore.Repository.Create` | internal/modules/session/internal/mariadb/repository.go:25-30 | Inserts the row, or changes nothing and fails when the id or the hash is taken or the user is missing; the keys stay unique |
| `SessionStore.Repository.GetByID` | internal/modules/session/internal/mariadb/repository.go:32-41 | Returns exactly the row with the id, or not-found |
| `SessionStore.Repository.GetByRefreshHash` | internal/modules/session/internal/mariadb/repository.go:43-52 | Returns the row holding the hash, or not-found |
| `SessionStore.Repository.Update` | internal/modules/session/internal/mariadb/repository.go:54-70 | Unconditional full-row write by id: it also puts back whatever hash the copy carries; reports a missing row |
| `SessionStore.Repository.Rotate` | internal/modules/session/internal/mariadb/repository.go:72-85 | Compare-and-swap on the old hash: writes hash, sliding deadline and last_seen_at, never the revocation; a mismatch changes nothing and is reported as reuse |
| `SessionStore.Repository.RevokeAllForUser` | internal/modules/session/internal/mariadb/repository.go:99-105 | Revokes every unrevoked row of the user and keeps earlier revocation times and all other rows |
| `SessionStore.Repository.ListByUser` | internal/modules/session/internal/mariadb/repository.go:87-97 | Returns each of the user's rows once and nobody else's, newest first with ties by descending id |
| `TokenCheck.ChecksAgree` | internal/platform/grpc/auth/interceptor.go:47-97 | The interceptor and Validate let in the same callers and report the same identity |
| `TokenCheck.LockedOutIff` | internal/modules/auth/internal/service/validate.go:56-107 | A user token is rejected by both checks exactly when its session is missing, revoked or past one of its deadlines |
| `TokenCheck.AcceptedIff` | internal/modules/auth/internal/service/validate.go:56-107 | Both checks accept, exactly, a user token for a session that is there, unrevoked and before both deadlines, and every service-account token, and report the claims' subject; nothing without verified claims |
| `SessionInvariant.RotateKeeps` | internal/modules/auth/internal/service/refresh.go:136-159 | A Rotate, won or lost, keeps the system invariant (rows genuine, live hashes unspent, in-flight copies traceable) |
| `SessionInvariant.WriteBackKeeps` | internal/modules/auth/internal/service/helpers.go:16-25 | A full-row write of a possibly stale copy keeps the invariant, because every such copy in flight is revoked |
| `SessionInvariant.MintKeeps` | internal/modules/auth/internal/service/login.go:162-176 | Inserting a freshly created session keeps the invariant |
| `SessionInvariant.RefreshKeeps` | internal/modules/auth/internal/service/refresh.go:62-80 | The lookup step of Refresh keeps the invariant and suspends with a genuine copy |
| `SessionInvariant.RefreshUserKeeps` | internal/modules/auth/internal/service/refresh.go:85-134 | The user check, the slide and the in-memory rotation keep the invariant; the hash they mint is the call's own |
| `SessionInvariant.RevocationKeeps` | internal/modules/auth/internal/service/revoke_all_sessions.go:34-84 | The first steps of Logout, RevokeSession, RevokeToken and RevokeAllSessions keep the invariant; whatever they queue for writing is revoked |
| `SessionInvariant.CredentialKeeps` | internal/modules/auth/internal/service/change_password.go:65-196 | The steps of Login, ChangePassword and ResetPassword before the insert keep the invariant |
| `SessionInvariant.InvRun` | internal/modules/auth/internal/service/refresh.go:47-188 | The invariant holds in every state of every interleaving of all session calls, user changes and crashes |
| `SessionTheorems.TokenBuysOneLivePair` | internal/modules/auth/internal/service/refresh.go:62-159 | In every interleaving a refresh hash wins Rotate at most once while its session is unrevoked: a second win is for the same session, already revoked, and its pair is rejected in every later state |
| `SessionTheorems.LiveHashIsUnspent` | internal/modules/session/internal/mariadb/dbgen/sessions.sql.go:152-196 | After a hash was rotated away, a row that holds it again (through a stale full-row write) is revoked |
| `SessionTheorems.StaleWriteLetsAHashWinTwice` | internal/modules/auth/internal/service/logout.go:27-64 | Why the restriction to unrevoked rows is needed: a Logout write between two rotations with one hash makes both win |
| `SessionTheorems.RevocationIsFinal` | internal/modules/session/internal/mariadb/dbgen/sessions.sql.go:138-196 | No step of any call clears a revocation, and the revoked session is rejected by both checks in every continuation |
| `SessionTheorems.RevokeAllIsFinal` | internal/modules/auth/internal/service/revoke_all_sessions.go:34-84 | A session existing when its user's sessions are revoked is rejected for ever after, even if an in-flight Refresh rotates it; at that step the user has no unrevoked session |
| `SessionTheorems.LifetimeIsCapped` | internal/modules/auth/internal/service/login.go:152-172 | Every stored session keeps expires_at = issued_at + refreshTTL and a sliding deadline not after it; from issued_at + refreshTTL on no user token for it is accepted |
| `SessionTheorems.IdentityIsFixed` | internal/modules/session/internal/domain/session.go:66-69 | Owner, creation time and hard cap of a row never change, stale writes or not |
| `SessionTheorems.HashStep` | internal/modules/session/internal/mariadb/dbgen/sessions.sql.go:152-164 | A step other than a full-row write takes a hash out of its row exactly when it reaches Rotate with that hash, and wins exactly when the row still holds it |
| `SessionTheorems.ExactlyTheFirstAttemptWins` | internal/modules/auth/internal/service/refresh.go:136-159 | While no full-row write touches the row, of all calls reaching Rotate with its hash exactly the first wins |
| `SessionTheorems.LoserTurnsToReplay` | internal/modules/auth/internal/service/refresh.go:136-150 | A call that loses Rotate changes no row and is about to revoke all sessions of the session's owner |
| `SessionTheorems.ReplayKillsTheFamily` | internal/modules/auth/internal/service/refresh.go:136-159 | Replay response of section 4.14.2 of RFC 9700: the loser's revocation leaves the user without any unrevoked session, and the winner's session is rejected from then on |
| `SessionStaleWrite.AnyLiveHashCanWinTwice` | internal/modules/session/internal/mariadb/dbgen/sessions.sql.go:152-196 | From every reachable state with a live session of an active user the run can go on, with two refreshes and a Logout, so that its hash wins Rotate twice: single use holds for unrevoked sessions only |
| `SessionStaleWrite.RevokeTokenCanMissItsSession` | internal/modules/auth/internal/service/revoke_token.go:37-83 | From every reachable state with a live session the run can go on with a refresh and then a RevokeToken by its owner with the replaced token, which answers Done and leaves the session live |
| `SessionEffects.WriteBackRevokes` | internal/modules/session/internal/mariadb/repository.go:54-70 | A full-row write of any call leaves its session revoked or gone, however stale the copy, and is refused only when the row is missing |
| `SessionEffects.DoneMeansRevoked` | internal/modules/auth/internal/service/revoke_session.go:37-79 | When a Logout or RevokeSession of an existing session answers Done, that session is rejected from then on, whatever was in flight |
| `SessionEffects.DoneMeansTokenRevoked` | internal/modules/auth/internal/service/revoke_token.go:37-83 | When a RevokeToken whose lookup found a session answers Done, that session is rejected from then on, whatever was in flight |
| `SessionEffects.UnknownTokenRevokesNothing` | internal/modules/auth/internal/service/revoke_token.go:37-83 | The lookup step changes no row; it answers Done at once exactly when no row holds the hash or the row found is the caller's own and already revoked, and NotOwned exactly for a session of somebody else |
| `SessionEffects.DoneMeansOthersRevoked` | internal/modules/auth/internal/service/revoke_all_sessions.go:34-84 | When the except-current revocation answers Done, every other session active at its listing is rejected from then on |
| `SessionEffects.IssuedIsStored` | internal/modules/auth/internal/service/login.go:162-176 | A pair is reported as issued in the very step that stores it: the row holds the new hash and the reported deadline; a rotation has replaced the presented hash and kept the revocation as it was |
| `SessionSurvivors.SurvivorsAreLater` | internal/modules/auth/internal/service/change_password.go:151-157 | After a password change or any other step that revokes all sessions of a user, every unrevoked session of that user was inserted by a later step |
| `SessionSurvivors.LoginCanOutlivePasswordChange` | internal/modules/auth/internal/service/change_password.go:151-196 | From every reachable state with an active user the run can go on with a Login past its password check, a complete ChangePassword and the insert of the Login: two sessions are active, not only the new one |
| `SessionAuthority.InsertWasAuthorised` | internal/modules/auth/internal/service/login.go:98-176 | In every interleaving each session was inserted by a call begun as a login, a password change or a reset of its user that had passed the check of its password or code while the user was active; the two latter had stored the password and revoked all sessions before |
| `SessionAuthority.RotationWasAuthorised` | internal/modules/auth/internal/service/refresh.go:62-113 | A refresh that comes to its rotation had found the session live under the presented hash and, after that, its owner active |
| `SessionAuthority.RefusedUserGetsNothing` | internal/modules/auth/internal/service/refresh.go:85-113 | A refresh whose read of the owner meets nobody or a blocked or deleted user never answers with a pair; when it answers, unless cut off, it refuses for that reason and its session is dead |
| `SessionAuthority.RevokeSessionNeedsOwner` | internal/modules/auth/internal/service/revoke_session.go:37-79 | The lookup changes nothing; NotFound exactly for a missing session, NotOwned exactly for somebody else's |
| `SessionAnswers.RefreshAnswers` | internal/modules/auth/internal/service/refresh.go:47-159 | Run alone, the whole effect and answer by the row and its owner: unknown, dead, owner gone, deleted, blocked, or the new hash with both timestamps; in the three refused cases of a live session it ends revoked |
| `SessionAnswers.RefreshIssuesIff` | internal/modules/auth/internal/service/refresh.go:47-159 | Alone and with a fresh hash it answers with a pair exactly for the hash of an unrevoked session before both deadlines whose owner is active |
| `SessionAnswers.LogoutAnswers` | internal/modules/auth/internal/service/logout.go:27-64 | Run alone, logout answers Done and leaves exactly that session revoked, at its first revocation time |
| `SessionAnswers.RevokeSessionAnswers` | internal/modules/auth/internal/service/revoke_session.go:37-79 | Not found, not owned, or exactly that session revoked |
| `SessionAnswers.RevokeTokenAnswers` | internal/modules/auth/internal/service/revoke_token.go:37-83 | The same by hash; an unknown token is Done and changes nothing |
| `SessionAnswers.RevokeAllAnswers` | internal/modules/session/internal/mariadb/dbgen/sessions.sql.go:138-150 | Exactly the unrevoked sessions of the caller are revoked; earlier revocation times and all other rows stay |
| `SessionAnswers.RevokeOthersAnswers` | internal/modules/auth/internal/service/revoke_all_sessions.go:63-84 | Exactly the other unrevoked sessions of the caller are revoked; the current one and all other rows stay |
| `SessionAnswers.LoginAnswers` | internal/modules/auth/internal/service/login.go:98-176 | The exact answer for a missing, deleted or blocked user and a wrong password, each without a change; otherwise the new row, column by column |
| `SessionAnswers.LoginIssuesIff` | internal/modules/auth/internal/service/login.go:98-176 | With a fresh id and hash, a login answers with a pair exactly for an active user whose password matches, and otherwise changes nothing |
| `SessionAnswers.ChangePasswordAnswers` | internal/modules/auth/internal/service/change_password.go:79-196 | The exact answer in each case; after the stored password every session there was is revoked and the new one added |
| `SessionAnswers.ChangePasswordIssues` | internal/modules/auth/internal/service/change_password.go:79-196 | Alone, a pair means an active user, a matching old password, a stored new one, and no other unrevoked session of the user |
| `SessionAnswers.ResetPasswordIssues` | internal/modules/auth/internal/service/reset_password_with_recovery_code.go:107-219 | The same for the reset, with the code spent |
| `RefreshChain.RefreshOnce` | internal/modules/auth/internal/service/refresh.go:77-134 | A refresh of a live row run alone succeeds exactly inside both deadlines, and then leaves exactly the slid and rotated row |
| `RefreshChain.ChainSurvivesIff` | internal/modules/auth/internal/service/refresh.go:77-134 | A chain of refreshes after a Login at t0, each with the newest token, succeeds throughout iff every gap is below refreshRotationTTL and every instant before t0 + refreshTTL |
| `AuthService.Service.RevokeSessionBestEffort` | internal/modules/auth/internal/service/helpers.go:16-25 | Revokes the copy in memory and writes the full row, whatever the write answers |
| `AuthService.Service.Refresh` | internal/modules/auth/internal/service/refresh.go:47-159 | Run alone, has exactly the effect and the answer of its protocol call, which are stated outright: a pair only for a live session of an active owner; for an owner missing, deleted or blocked the session ends revoked |
| `AuthService.Service.PersistRotation` | internal/modules/auth/internal/service/refresh.go:136-159 | From any table, however it changed since the load: the conditional write and the replay response have the effect and the answer of the protocol call's last steps |
| `AuthService.Service.Logout` | internal/modules/auth/internal/service/logout.go:27-64 | Same for Logout; a missing or already revoked session is a success without a write |
| `AuthService.Service.RevokeSession` | internal/modules/auth/internal/service/revoke_session.go:37-79 | Same for RevokeSession; a session of someone else is refused, an own one ends revoked |
| `AuthService.Service.RevokeToken` | internal/modules/auth/internal/service/revoke_token.go:37-83 | Same for RevokeToken; an unknown token is a success |
| `AuthService.Service.RevokeAllSessions` | internal/modules/auth/internal/service/revoke_all_sessions.go:34-84 | Same for both paths of RevokeAllSessions: exactly the caller's unrevoked sessions, but for the current one if asked, end revoked |
| `AuthService.Service.RevokeOthers` | internal/modules/auth/internal/service/revoke_all_sessions.go:63-84 | The loop over the listing revokes and writes exactly the other unrevoked sessions, in order, until a write fails |
| `AuthService.Service.Login` | internal/modules/auth/internal/service/login.go:52-203 | Same for Login: a session only for an active user whose password matches, else no change |
| `AuthService.Service.IssueSession` | internal/modules/auth/internal/service/login.go:152-176 | The new session has both deadlines counted from now, the sliding one capped |
| `AuthService.Service.RevokeThenIssue` | internal/modules/auth/internal/service/reset_password_with_recovery_code.go:178-225 | Revoking everything and creating the new session, as the protocol call does |
| `PasswordService.Service.ChangePassword` | internal/modules/auth/internal/service/change_password.go:65-219 | On the users and the sessions table: the password is written, under the etag read before, only for an active user whose old password matches; a pair means the new hash is stored and no other session of the user is unrevoked |
| `PasswordService.Service.StoreThenIssue` | internal/modules/auth/internal/service/change_password.go:120-196 | A failed password write leaves the sessions alone; a successful one revokes them all and creates the new one |
| `PasswordService.Service.ResetPassword` | internal/modules/auth/internal/service/reset_password_with_recovery_code.go:67-242 | On the users, the sessions and the recovery codes: the code is spent before the password is written and stays spent when a later step fails; a pair means a code spent, the new hash stored and no other session unrevoked |
| `PasswordService.RedeemedIsActive` | internal/modules/auth/internal/service/reset_password_with_recovery_code.go:118-150 | A code is redeemed for an active user only |
| `SessionPager.SelectSessionsPage` | internal/modules/auth/internal/service/list_sessions.go:110-139 | The page is the first rows past the cursor, no more than the page size; the next cursor is set exactly when rows are left and is the last returned row |
| `SessionPager.ListSessions` | internal/modules/auth/internal/service/list_sessions.go:53-101 | Rejects a negative size and then a malformed token, defaults 0 to 50, caps at 100; returns the newest active sessions past the cursor, a cursor exactly when there are more, and the number of active sessions |
| `SessionPager.KeepActive` | internal/modules/auth/internal/service/list_sessions.go:79-85 | Keeps exactly the active sessions, in order |
| `SessionPager.CursorAdvances` | internal/modules/auth/internal/service/list_sessions.go:107-139 | Each page but the last moves the cursor strictly towards older sessions |
| `SessionPager.NoneReturnedTwice` | internal/modules/auth/internal/service/list_sessions.go:79-152 | However sessions are created, refreshed, revoked or expire between the calls and whatever the page sizes, no session is returned twice |
| `SessionPager.ActiveThroughoutIsReturned` | internal/modules/auth/internal/service/list_sessions.go:79-152 | A session active at every call of a walk that ended was returned on some page |
| `UserDomain.Aggregate.Lifecycle` | internal/modules/identity/internal/domain/user.go:206-239 | Disable leaves BLOCKED, Enable ACTIVE, SoftDelete DELETED; the two former refuse a deleted user; etag and updated_at move exactly when the status does, and nothing else changes |
| `UserDomain.Aggregate.Patch` | internal/modules/identity/internal/domain/user.go:243-276 | Refuses a deleted user; each masked field takes its value, each other stays; etag and updated_at move exactly when a field differs |
| `UserDomain.Aggregate.StorePassword` | internal/modules/identity/internal/domain/user.go:287-297 | Refuses a deleted user or an empty hash and changes nothing; otherwise the hash under a new version, nothing else |
| `UserStore.Repository.Create` | internal/modules/identity/internal/mariadb/repository.go:43-55 | Inserts the user unless id, e-mail or username is taken; the keys stay unique |
| `UserStore.Repository.Update` | internal/modules/identity/internal/mariadb/repository.go:118-147 | Writes the whole row where id and, unless wildcard, etag match; the keys stay unique and no other row changes; 0 matched rows are told apart as missing or drifted |
| `UserStore.Repository.UpdatePassword` | internal/modules/identity/internal/mariadb/repository.go:166-186 | Writes password hash, etag and updated_at only, where id and etag match; profile, status and every other row stay |
| `UserStore.Repository.UpdateLastLoginAt` | internal/modules/identity/internal/mariadb/repository.go:188-201 | Writes the last login of that user, and no etag |
| `UserStore.Repository.Delete` | internal/modules/identity/internal/mariadb/repository.go:252-280 | Deletes where id and, unless wildcard, etag match |
| `UserProtocol.InvRun` | internal/modules/identity/internal/mariadb/repository.go:118-280 | Every etag ever stored or carried by a call in flight names one version, in every interleaving of conditional and unconditional writers |
| `UserProtocol.EtagNamesOneVersion` | internal/modules/identity/internal/domain/user.go:206-330 | Two reads anywhere in a run with equal etags show the same user, profile, status, password hash and timestamps; only last_login_at may differ |
| `UserProtocol.RowsAreConsistent` | internal/modules/identity/internal/mariadb/repository.go:43-147 | Ids, e-mails and usernames are unique in every reachable state |
| `UserSerial.MatchedFindsLoaded` | internal/modules/identity/internal/mariadb/dbgen/users.sql.go:283-347 | When the etag condition of a pending write matches, the write finds the etag it loaded, although the caller chose the etag before the load |
| `UserSerial.CurrentIff` | internal/modules/identity/internal/mariadb/repository.go:118-147 | The row a pending write is about to overwrite is the version the call loaded iff it has the etag that was loaded |
| `UserSerial.CommitWritesCopy` | internal/modules/identity/internal/mariadb/repository.go:118-147 | A committed full-row write, conditional or not, leaves its own change applied to the version it loaded, whatever the row held |
| `UserSerial.CommitPatchesPredecessor` | internal/modules/identity/internal/mariadb/repository.go:118-186 | A committed write that finds the etag it loaded, lifecycle writes included, turns the version it finds into that version with its own change; a password write always does |
| `UserSerial.NothingLostIff` | internal/modules/identity/internal/service/service.go:73-117 | A committed full-row write overwrites nothing but what it sets iff the row agrees outside of that with what the call loaded; otherwise a profile, password or status committed in between is overwritten with the older value |
| `UserSerial.OthersKeepVersion` | internal/modules/identity/internal/mariadb/dbgen/users.sql.go:268-347 | Any other step leaves the versioned fields as they were |
| `UserSerial.SerialRun` | internal/modules/identity/internal/service/update.go:46-101 | In every reachable state, with any mix of writers: each pending write is its request's mutation of a version that was in the table, under an etag nobody else has seen |
| `UserSerial.VersionsAreReplayed` | internal/modules/identity/internal/mariadb/repository.go:118-186 | With any mix of conditional, wildcard and lifecycle writers: while every unconditional write to a user finds the etag it loaded, the user's version is its committed writes applied one after the other, and no update is lost |
| `UserSerial.EtagWritersAreSerial` | internal/modules/identity/internal/mariadb/repository.go:118-186 | In particular when every writer of that user carries an etag, whatever happens to other users |
| `UserLostUpdate.AnyActiveUserCanLoseAnUpdate` | internal/modules/identity/internal/service/service.go:73-117 | From every reachable state with an active user the run can go on with a Disable that loads it, an update under the current etag that commits, and the Disable's save, which puts the old profile back |
| `IdentityService.BuildPatch` | internal/modules/identity/internal/service/update.go:106-137 | Fails exactly on an unknown path; otherwise a field is patched exactly when the mask names it, with the request's value |
| `IdentityService.Service.Create` | internal/modules/identity/internal/service/create.go:26-59 | Run alone, has the effect and gives the error of its protocol call |
| `IdentityService.Service.UpdateUser` | internal/modules/identity/internal/service/update.go:46-101 | Same for UpdateUser |
| `IdentityService.Service.LifecycleEmit` | internal/modules/identity/internal/service/service.go:73-117 | Has the effect of its protocol call and, literally: Disable ends BLOCKED, Enable ACTIVE, SoftDelete DELETED, the etag moves on a transition only, a deleted user is refused but for SoftDelete; allowMissing turns a missing user into success |
| `IdentityService.Service.PermanentlyDelete` | internal/modules/identity/internal/service/delete.go:56-103 | Same for the hard delete: only a soft-deleted user, only with the current etag |
| `IdentityService.Service.StorePassword` | internal/modules/auth/internal/service/change_password.go:120-149 | Same for the password write, which pins the etag read before SetPassword |
| `UserAnswers.LifecycleAnswers` | internal/modules/identity/internal/service/service.go:73-117 | Run alone, the literal status each call reaches, the one error it gives, and nothing else changed |
| `UserAnswers.UpdateAnswers` | internal/modules/identity/internal/service/update.go:46-101 | The errors in their order (missing, deleted, etag, name in use), each without a change; else exactly the masked fields under a new version, or no change when none differs |
| `UserAnswers.PasswordAnswers` | internal/modules/auth/internal/service/change_password.go:84-149 | Missing, deleted, blocked and empty hash without a change; else the hash under a new version |
| `UserAnswers.HardDeleteAnswers` | internal/modules/identity/internal/service/delete.go:56-103 | Only a soft-deleted user with the given etag goes, and nobody else |
| `UserAnswers.CreateAnswers` | internal/modules/identity/internal/service/create.go:26-59 | A new ACTIVE user unless id, e-mail or username is in use |
| `UserAnswers.OnlySoftDeletedUsersGo` | internal/modules/identity/internal/service/delete.go:56-103 | In every interleaving a user only ever goes by a hard delete, under its present etag, and is soft-deleted at that moment |
| `RateLimiter.KeyedLimiter.Allow` | internal/platform/ratelimit/keyed.go:54-83 | Reserve and cancel under the lock amount to: allowed, and one token spent, exactly when a token is there; the key counts as seen either way |
| `RateLimiter.KeyedLimiter.EvictIdle` | internal/platform/ratelimit/keyed.go:100-110 | Deletes exactly the entries last seen before the cutoff |
| `RateLimiter.AllowKeepsOk` | internal/platform/ratelimit/keyed.go:54-83 | Tokens stay between 0 and burst |
| `RateLimiter.AllowSpends` | internal/platform/ratelimit/keyed.go:66-83 | An allowed call costs its key one token, a denied call nothing, and no other key is touched, at every later instant |
| `RateLimiter.RetryIsExact` | internal/platform/ratelimit/keyed.go:66-83 | Allowed exactly when a token is there; a denied call is told exactly how long to wait: with nothing in between a call is allowed from then on and not before |
| `RateLimiter.SweepKeepsLevel` | internal/platform/ratelimit/keyed.go:100-110 | If idle entries had time to refill, a sweep changes no key's level |
| `RateLimiter.EvictionIsInvisibleIff` | internal/platform/ratelimit/keyed.go:54-110 | A swept limiter gives the same answers as one that never evicts, in every run, iff IdleEvict is long enough to refill the bucket |
| `RateLimiter.WindowBound` | internal/platform/ratelimit/keyed.go:54-110 | In every run with sweeps and every window of length T, Allow is true at most burst + rps*T times per key |
| `RateLimiter.WindowBoundIff` | internal/platform/ratelimit/keyed.go:54-110 | The window bound holds of every run iff IdleEvict is long enough to refill the bucket |
| `RateLimitConfig.IdleTimeRefills` | internal/bootstrap/bootstrap.go:309-318 | Whenever twice the refill time as computed, rounded anyhow within a quarter, fits a duration, the configured idle time is long enough despite rounding, truncation and the one-minute floor |
| `RateLimitConfig.OverflowIsTooShort` | internal/bootstrap/bootstrap.go:309-318 | When it does not fit, amd64 converts it to the minimum integer, the floor makes it one minute, and that is too short |
| `RateLimitConfig.SomeValidPolicyOverflows` | internal/platform/config/ratelimit.go:34-42 | An rps that validation accepts (above 0) with burst 10 overflows the conversion however the arithmetic rounds |
| `RateLimitConfig.SweepsAreInvisibleIff` | internal/bootstrap/bootstrap.go:309-326 | For the policies configuration accepts: sweeps are invisible in every run iff the computed 2*burst/rps seconds fit a 64-bit duration |
| `RateLimitConfig.WindowsAreBoundedIff` | internal/bootstrap/bootstrap.go:309-326 | And the window bound holds of every run for exactly the same policies |
| `RateLimitInterceptor.Interceptor.New` | internal/platform/ratelimit/interceptor.go:47-71 | Fails exactly when some binding names an unknown policy; otherwise one empty limiter per policy |
| `RateLimitInterceptor.Interceptor.Unary` | internal/platform/ratelimit/interceptor.go:88-115 | Applies the method's limits in order, skips those without a key, stops at the first denial and keeps earlier charges; the handler runs exactly when none denies |
| `RateLimitInterceptor.UnaryEvaluates` | internal/platform/ratelimit/interceptor.go:88-115 | The buckets go through one state per limit in order, each charging its own policy under the key it extracts, until all have passed or the first denies |
| `RateLimitTraffic.StepsAloneAreUnary` | internal/platform/ratelimit/interceptor.go:81-115 | The separately locked steps of one request, with nothing in between, charge and admit exactly as Unary does |
| `RateLimitTraffic.StepPays` | internal/platform/ratelimit/interceptor.go:88-115 | Whatever step comes next, a limit of some request, a handler or a sweep: a handler run is paid for by a token its request took before |
| `RateLimitTraffic.HandlersHavePassed` | internal/platform/ratelimit/interceptor.go:88-115 | However the steps interleave, a request that has come to its handler has passed every limit it arrived with that has a key and a known policy |
| `RateLimitTraffic.ChargedBound` | internal/platform/ratelimit/interceptor.go:81-115 | Of the Allows a policy grants under a key at instants in a window of length T, at most burst + rps*T are followed by a handler run |
| `RateLimitTraffic.HandlerBound` | internal/platform/ratelimit/interceptor.go:81-115 | With the limits of any number of requests and the sweeps interleaved in any way, and no handler later than d after its request last passed the limit: handlers of requests that arrived with the limit under the key run at most burst + rps*(T + d) times in a window of length T |
| `RateLimitTraffic.LateHandlersBunch` | internal/platform/ratelimit/interceptor.go:110-115 | The delay is needed and the bound is met: a run with burst 1 and one token a second in which two handlers run at one instant, one of them 1 s after its Allow |
| `Keyset.KeysetIsAfter` | internal/modules/identity/internal/mariadb/list.go:140-179 | For each of the seven orders the cursor predicate selects exactly the rows that ORDER BY puts strictly after the cursor's row |
| `Keyset.BeforeIsOrder` | internal/modules/identity/internal/mariadb/list.go:162-179 | Each of the seven ORDER BY clauses is a strict total order on rows with distinct ids |
| `Keyset.ScanPage` | internal/modules/identity/internal/mariadb/list.go:46-73 | The probe row is dropped and turned into a cursor at the last returned row exactly when it is there |
| `Keyset.SelectFromCursor` | internal/modules/identity/internal/mariadb/list.go:23-45 | With the cursor on row k of the filtered and sorted list, the query finds exactly the rows after k, up to the limit |
| `Keyset.PageIsSlice` | internal/modules/identity/internal/mariadb/list.go:23-73 | A page is the next slice of the list, and its cursor is set exactly when rows are left |
| `Keyset.PagesConcatenate` | internal/modules/identity/internal/mariadb/list.go:23-179 | Following cursors over an unchanged table, with any page sizes, concatenates to the filtered rows in order, each once, and ends |
| `Keyset.WalkReturnsSelection` | internal/modules/identity/internal/mariadb/list.go:23-179 | A walk to the end returns, in order and each once, exactly the rows the request selects; users and roles alike |
| `UserList.BuildWhere` | internal/modules/identity/internal/mariadb/list.go:79-135 | Under every collation the clauses together select exactly: deleted users only on request, search text anywhere in one of three fields, OR within a list, AND across, past the cursor |
| `UserList.List` | internal/modules/identity/internal/mariadb/list.go:23-73 | Rejects a page size that is not positive; otherwise the page of the users the request selects |
| `RoleList.BuildWhere` | internal/modules/role/internal/mariadb/list.go:134-172 | Under every collation the clauses together select exactly the app's roles with the asked status and search text past the cursor |
| `RoleList.LoadPermissionsForPage` | internal/modules/role/internal/mariadb/list.go:96-130 | Groups the permissions by role: each role of the page gets exactly its own, in row order |
| `RoleList.List` | internal/modules/role/internal/mariadb/list.go:24-86 | Rejects a bad size or a missing app; otherwise the page of the selected roles with the permissions of each |
| `Like.SearchIsSubstring` | internal/kernel/dbutil/dbutil.go:92-99 | For all strings and every notion of equal characters, "%" + EscapeLike(s) + "%" matches t iff s occurs in t (like predicate, subclause 8.5 of ISO/IEC 9075-2) |
| `Like.EscapedPrefix` | internal/kernel/dbutil/dbutil.go:92-99 | An escaped string followed by % matches exactly the texts that start with it, character by character |
| `AccessCheck.IsLowerIdent` | internal/modules/access/internal/service/check.go:196-211 | True exactly on [a-z][a-z0-9_]* |
| `AccessCheck.ValidatePermissionRequest` | internal/modules/access/internal/service/check.go:176-192 | Accepts exactly resource:action with two identifiers and 3 to 64 bytes; in particular no wildcard |
| `AccessCheck.MatchPermissions` | internal/modules/access/internal/service/check.go:219-243 | Returns exactly the roles with a row that is the request or its "resource:*" |
| `AccessCheck.Checker.CheckPermission` | internal/modules/access/internal/service/check.go:70-101 | Allowed iff some ACTIVE role of that app assigned to the user carries the request or its wildcard; the matched ids are exactly those roles, each once; errors in the code's order |
| `AccessCheck.Checker.BatchCheckPermission` | internal/modules/access/internal/service/check.go:116-139 | Each position is answered as CheckPermission answers it alone; errors in the code's order |
| `AccessCheck.Checker.ParseCheckInput` | internal/modules/access/internal/service/check.go:147-171 | Accepts exactly 1 to 32 well-formed requests |
| `AccessCheck.JoinIsCarries` | internal/modules/access/internal/mariadb/dbgen/roleAssignments.sql.go:95-103 | In a consistent database the join, which filters on the assignment's own app_id, yields exactly the permissions of the user's ACTIVE roles of the app |
| `AccessCheck.BlockedUserIsAllowed` | internal/modules/access/internal/service/check.go:70-101 | In consistent tables with a blocked user whose active role carries the permission, the check finds no fault and the permission is carried: the answer is allowed |
| `AccessCheckRun.AnswerIsTheJoins` | internal/modules/access/internal/service/check.go:70-101 | With its three reads at any three states of a run, a check answers from the tables at the join: allowed iff some role carries the permission there, and then user and app still exist there |
| `AccessCheckRun.AnswerIsCurrentIff` | internal/modules/access/internal/service/check.go:70-101 | The answer is the one all reads at the join would give iff user and app still exist then; otherwise it is a denial where they would have failed |
| `AccessStore.AssignmentRepository.Create` | internal/modules/access/internal/mariadb/repository.go:35-47 | Inserts; a duplicate is no error and leaves the existing row; a missing parent fails; every other row stays |
| `AccessStore.AssignmentRepository.Delete` | internal/modules/access/internal/mariadb/repository.go:63-75 | The pair is not assigned afterwards; every other assignment, user and table is as before |
| `AccessStore.AssignmentRepository.BulkCreate` | internal/modules/access/internal/mariadb/repository.go:86-107 | The transactional loop is the inserts in order, or no change at all when one fails |
| `AccessStore.AssignmentRepository.BulkDelete` | internal/modules/access/internal/mariadb/repository.go:111-125 | Removes exactly the user's assignments of the named roles |
| `AccessStore.AssignmentRepository.ListActivePermissions` | internal/modules/access/internal/mariadb/repository.go:136-153 | Returns exactly the rows of the permission join |
| `AccessStore.InsertAllMeans` | internal/modules/access/internal/mariadb/repository.go:86-107 | A bulk insert fails exactly when a user or role is missing; otherwise exactly the requested pairs are added and existing rows keep their original grant |
| `AccessStore.MaskMeans` | internal/modules/access/internal/mariadb/repository.go:86-107 | created[i] is true exactly when pair i had no row and was not requested before |
| `AccessProtocol.AssignmentsStayReferential` | internal/modules/access/internal/service/grant.go:52-166 | In every interleaving of grants, bulk grants, removals and cascading role, app and user deletes, each assignment has its user and its role, and its app_id is the role's app |
| `AccessProtocol.InvStep` | internal/modules/access/internal/service/grant.go:30-166 | Every step keeps that, although app_id comes from a role read earlier and has no foreign key |
| `AccessProtocol.OnlyGrantsAdd` | internal/modules/access/internal/service/remove.go:26-128 | A pair that was removed is not assigned again until a step grants that very pair, and while assigned the row of the first grant stands |
| `AccessProtocol.BulkGrantIsAtomic` | internal/modules/access/internal/service/grant.go:133-166 | Whatever happened since its checks, the bulk insert adds every requested pair or changes nothing |
| `AccessService.Service.ParseBulkInput` | internal/modules/access/internal/service/grant.go:197-237 | Accepts exactly 1 to 32 roles, none twice |
| `AccessService.Service.LoadActiveRoleInApp` | internal/modules/access/internal/service/service.go:95-110 | Not found before disabled before wrong app |
| `AccessService.Service.RequireUserEligible` | internal/modules/access/internal/service/service.go:116-128 | Only an existing ACTIVE user may be granted a role |
| `AccessService.Service.GrantRoleToUser` | internal/modules/access/internal/service/grant.go:30-103 | Run alone, has the effect and the answer of its protocol call; a re-grant returns the original row |
| `AccessService.Service.BulkGrantRoles` | internal/modules/access/internal/service/grant.go:117-188 | Same for BulkGrantRoles: all checks precede the one write |
| `AccessService.Service.InsertAndReload` | internal/modules/access/internal/service/grant.go:156-188 | The rows that were already there are returned as they are stored |
| `AccessService.Service.RemoveRoleFromUser` | internal/modules/access/internal/service/remove.go:26-66 | Same for RemoveRoleFromUser; Removed means exactly that pair is gone, also when it was not assigned |
| `AccessService.Service.BulkRemoveRoles` | internal/modules/access/internal/service/remove.go:78-128 | Same for BulkRemoveRoles; a role of another app is refused, a disabled one is not |
| `AccessAnswers.GrantAnswers` | internal/modules/access/internal/service/grant.go:30-103 | Run alone, the faults in their order without a change; a re-grant returns the row that is there; else exactly the new row with the role's app |
| `AccessAnswers.BulkGrantAnswers` | internal/modules/access/internal/service/grant.go:117-188 | The first fault without a change; else exactly the requested pairs added, for an active user and active roles of the app, with the rows and the mask as stored |
| `AccessAnswers.RemoveAnswers` | internal/modules/access/internal/service/remove.go:26-66 | Removed means the pair is not assigned and every other assignment, user and table is as before; any other answer changes nothing |
| `AccessAnswers.BulkRemoveAnswers` | internal/modules/access/internal/service/remove.go:78-128 | The same for every pair of the request; the first role missing or of another app is refused without a change |
| `AccessAuthority.RemovedIsGone` | internal/modules/access/internal/service/remove.go:26-128 | In every interleaving the step in which a removal answers Removed leaves none of its pairs assigned and everything else as it was |
| `AccessAuthority.GrantWasChecked` | internal/modules/access/internal/service/grant.go:52-83 | A single grant about to insert has found the role active, of the app it writes, and later the user active |
| `AccessAuthority.BulkGrantWasChecked` | internal/modules/access/internal/service/grant.go:133-155 | A bulk grant about to insert has found its user active and each role active and of its app, each at some earlier state |
| `RecoveryGenerator.RandomCode` | internal/platform/crypto/recoverycode/generator.go:103-125 | Twelve characters of the alphabet, one per byte by its low five bits, in three hyphenated groups |
| `RecoveryGenerator.NormalForm` | internal/platform/crypto/recoverycode/generator.go:127-131 | A printed code's normal form is its significant characters |
| `RecoveryGenerator.VariantsHashAlike` | internal/platform/crypto/recoverycode/generator.go:127-131 | Texts that differ in hyphens and case only have one digest |
| `RecoveryGenerator.HashMatchesVariants` | internal/platform/crypto/recoverycode/generator.go:127-131 | Any typed text hashes to the digest of an ASCII code exactly when it is that code up to hyphens and case, where the dotless i and the long s upper-case to I and S |
| `RecoveryGenerator.BatchHashesDistinct` | internal/platform/crypto/recoverycode/generator.go:72-131 | Distinct printed codes have pairwise distinct digests |
| `RecoveryGenerator.CollectedAreDistinct` | internal/platform/crypto/recoverycode/generator.go:77-91 | The collected codes are distinct printed codes, and none that was drawn is passed over while fewer than ten are there |
| `RecoveryGenerator.Generate` | internal/platform/crypto/recoverycode/generator.go:72-91 | Returns the first ten distinct codes drawn with their digests, which are distinct too; fails exactly when the random source ends first |
| `RecoveryStore.Batch.Revoke` | internal/modules/recoverycode/internal/domain/recoverycode.go:161-166 | Keeps the first revocation time |
| `RecoveryStore.Batch.ConsumeByHash` | internal/modules/recoverycode/internal/domain/recoverycode.go:174-189 | Spends the first code with the hash, and nothing else, exactly when the batch is active and that code unused |
| `RecoveryStore.AggregateAgreesWithUpdate` | internal/modules/recoverycode/internal/domain/recoverycode.go:168-189 | On an active batch the aggregate accepts a hash exactly when the conditional UPDATE does |
| `RecoveryStore.Repository.CreateBatch` | internal/modules/recoverycode/internal/mariadb/repository.go:29-50 | The batch with all its codes, or nothing; fails exactly on a taken id, a missing user or a duplicate hash |
| `RecoveryStore.Repository.GetActiveBatchByUser` | internal/modules/recoverycode/internal/mariadb/repository.go:52-65 | Some active batch of the user with exactly its stored codes, if there is one |
| `RecoveryStore.Repository.ListCodesByBatch` | internal/modules/recoverycode/internal/mariadb/repository.go:60-63 | Exactly the codes of the batch, each once, with their time of use |
| `RecoveryStore.Repository.RevokeActiveBatchesForUser` | internal/modules/recoverycode/internal/mariadb/repository.go:78-87 | Revokes the user's active batches and no other |
| `RecoveryStore.Repository.ConsumeCode` | internal/modules/recoverycode/internal/mariadb/repository.go:94-111 | Conditional on the code being unused, and on nothing else |
| `RecoveryProtocol.InvRun` | internal/modules/recoverycode/internal/mariadb/repository.go:29-111 | In every interleaving stored codes were printed for their batch, and a code is marked used exactly when it was redeemed |
| `RecoveryProtocol.CreateBatchNeverCollides` | internal/modules/auth/internal/service/generate_recovery_codes.go:79-101 | In every reachable state creating a batch fails only when its user is gone or no codes were generated: never on the primary key of the codes |
| `RecoveryProtocol.NoCodeIsRedeemedTwice` | internal/modules/recoverycode/internal/mariadb/dbgen/recovery_codes.sql.go:14-27 | In every interleaving of Generate and Reset a (batch, hash) wins ConsumeCode at most once |
| `RecoveryProtocol.VariantsShareOneUse` | internal/platform/crypto/recoverycode/generator.go:93-131 | Typed twice in any case, with or without hyphens, a printed code is accepted at most once per batch |
| `RecoveryProtocol.RedeemedWasPrinted` | internal/modules/auth/internal/service/reset_password_with_recovery_code.go:137-150 | Whatever text is typed, what is accepted is a variant of a code printed for that batch |
| `RecoveryProtocol.RedemptionsAreBounded` | internal/modules/recoverycode/internal/mariadb/dbgen/recovery_codes.sql.go:14-27 | In every run a batch is redeemed at most ten times |
| `RecoveryProtocol.RevokedBatchIsDead` | internal/modules/recoverycode/internal/mariadb/dbgen/recovery_codes.sql.go:118-131 | Revocation of a batch is final, and a code of a revoked batch is only accepted from a reset that had found the batch before and was about to redeem |
| `RecoveryProtocol.SingleActiveStep` | internal/modules/auth/internal/service/generate_recovery_codes.go:73-101 | A step keeps "at most one active batch per user" iff it is not the creation of a batch, with codes, for a user who is there and has an active batch |
| `RecoveryRace.RacingGeneratesLeaveTwo` | internal/modules/auth/internal/service/generate_recovery_codes.go:73-101 | From every reachable state with an active user the run can go on with two Generate calls that both answer with codes and leave two active batches, contrary to the comment |
| `RecoveryService.Service.GenerateRecoveryCodes` | internal/modules/auth/internal/service/generate_recovery_codes.go:36-112 | Run alone, has the effect and the answer of its protocol call with the codes the generator collects: earlier active batches end revoked, and an issued batch is the only active one |
| `RecoveryService.Service.RedeemCode` | internal/modules/auth/internal/service/reset_password_with_recovery_code.go:115-150 | Same for the part of ResetPasswordWithRecoveryCode that spends the code |
| `RecoveryAnswers.GenerateAnswers` | internal/modules/auth/internal/service/generate_recovery_codes.go:36-112 | Run alone, the refusals without a change; else every active batch of the user revoked and, unless it fails, the new one added with its codes unused |
| `RecoveryAnswers.GenerateRetires` | internal/modules/auth/internal/service/generate_recovery_codes.go:73-101 | For an active user every batch that was active ends revoked, also when no new one is made; when one is, it is the only active one |
| `RecoveryAnswers.RedeemAnswers` | internal/modules/auth/internal/service/reset_password_with_recovery_code.go:107-150 | Run alone, redeemed exactly for an active user, an active batch found and an unused code of it, which alone is spent |
| `RecoveryAnswers.IssuedRetiresEarlier` | internal/modules/auth/internal/service/generate_recovery_codes.go:73-101 | In every interleaving, when a generation answers with codes every batch its user had when the call began is retired |
| `RecoveryAnswers.RedemptionWasChecked` | internal/modules/auth/internal/service/reset_password_with_recovery_code.go:107-137 | A reset about to redeem has found its user active and later the batch active and that user's |
| `RoleDomain.CanonicalIdentifiesPermutations` | internal/modules/role/internal/domain/role.go:213-220 | Two permission lists have the same canonical form iff one is a permutation of the other |
| `RoleDomain.CanonicalSorts` | internal/modules/role/internal/domain/role.go:213-220 | The canonical list is sorted and holds the same permissions, each as often |
| `RoleDomain.Aggregate.New` | internal/modules/role/internal/domain/role.go:84-96 | A new role is ACTIVE, stamped once, with a sorted list of the given permissions |
| `RoleDomain.Aggregate.ApplyPatch` | internal/modules/role/internal/domain/role.go:182-202 | Nothing changes, etag included, iff the patch asks for nothing new, and permuting the list asks for nothing new; otherwise exactly the masked fields change and the list stays sorted |
| `RoleDomain.Aggregate.Disable` | internal/modules/role/internal/domain/role.go:162-168 | Only a transition moves the version; the permissions stay |
| `RoleDomain.Aggregate.Enable` | internal/modules/role/internal/domain/role.go:171-177 | Only a transition moves the version; the permissions stay |
| `RoleStore.Repository.Create` | internal/modules/role/internal/mariadb/repository.go:50-66 | Row and permissions are stored together or not at all; succeeds exactly when id and name are free, the app exists and no permission is repeated |
| `RoleStore.Repository.GetByID` | internal/modules/role/internal/mariadb/repository.go:71-89 | The row with the sorted list of exactly its permissions |
| `RoleStore.Repository.Update` | internal/modules/role/internal/mariadb/repository.go:103-150 | A success leaves the new row and exactly the given permissions, skipped or rewritten; any failure, a duplicate permission included, leaves both tables as they were; when it succeeds and which error it gives, exactly |
| `RoleStore.Repository.InsertPermissions` | internal/modules/role/internal/mariadb/repository.go:144-148 | The insert loop fails exactly on a repeated or already stored permission |
| `RoleStore.ListingIsUnique` | internal/modules/role/internal/mariadb/repository.go:95-101 | A permission set is loaded as one list only, so comparing lists compares sets |
| `RoleStore.Repository.Delete` | internal/modules/role/internal/mariadb/repository.go:160-187 | Removes the role and, by cascade, exactly its permissions where id and, unless wildcard, etag match; a failure says which did not |
| `RoleStore.WrittenIsLoaded` | internal/modules/role/internal/mariadb/repository.go:71-150 | Round trip: a role written with a canonical list is loaded again as it was |
| `RoleProtocol.RowWasStored` | internal/modules/role/internal/mariadb/repository.go:71-80 | The row a pending load or save holds was in the table, just so, when that call read it |
| `RoleEtags.EtagsNameRolesIff` | internal/modules/role/internal/mariadb/repository.go:71-150 | In every run an etag names one row and one permission set exactly as long as each committed write that changes nothing stores the permissions its role had when its row was read |
| `RoleEtags.InvRun` | internal/modules/role/internal/mariadb/repository.go:71-150 | As long as that is so, every etag in the tables or in flight names one role, and names once given stay |
| `RoleEtags.UnfaithfulBreaks` | internal/modules/role/internal/mariadb/repository.go:71-150 | The first write that stores others leaves them under the etag the role had with its old permissions |
| `RoleEtags.EtagNamesOneRole` | internal/modules/role/internal/mariadb/repository.go:103-150 | So in runs whose unchanged copies were loaded while the role kept its etag, two states with equal etags hold the same row and the same permissions |
| `RoleEtags.LoadIsVersionIff` | internal/modules/role/internal/mariadb/repository.go:71-89 | While etags name roles, a load by two queries shows a role that was stored at some time iff the permissions are the same at both queries, whatever was written in between; they are when the role still has its etag at the second |
| `RoleProtocol.MutatedRun` | internal/modules/role/internal/service/update.go:32-79 | In every run a pending save is its request's patch or switch of the role it loaded |
| `RoleProtocol.NothingLostIff` | internal/modules/role/internal/service/service.go:70-110 | In every run a committed save overwrites nothing but what it sets iff the role agrees outside of that with what the call loaded; a Disable or Enable leaves exactly the permissions it had loaded |
| `RoleRaces.RolesAreUnique` | internal/modules/role/internal/mariadb/repository.go:50-150 | Role ids, and names within an app, are unique in every reachable state |
| `RoleRaces.DisableCanRestorePermissions` | internal/modules/role/internal/service/service.go:94-107 | From every reachable state with an active role the run can go on with a Disable that loads it, an update under the current etag that commits other permissions, and the Disable's save, which puts the old ones back |
| `RoleRaces.TornDisableReusesItsEtag` | internal/modules/role/internal/mariadb/repository.go:71-150 | From every reachable state with a disabled role the run can go on with a repeated Disable, an update between its two queries, and its save: the old etag then stands for other permissions, and etags no longer name roles |
| `RoleService.Service.CreateRole` | internal/modules/role/internal/service/create.go:29-62 | Run alone, has the effect on row and permissions and the answer of its protocol call |
| `RoleService.Service.GetRole` | internal/modules/role/internal/service/get.go:17-23 | Same for GetRole |
| `RoleService.Service.UpdateRole` | internal/modules/role/internal/service/update.go:32-79 | Same for UpdateRole |
| `RoleService.Service.LifecycleTransition` | internal/modules/role/internal/service/service.go:70-110 | Same for DisableRole and EnableRole, which save without an etag; allowMissing turns a missing role into success |
| `RoleService.Service.PermanentlyDelete` | internal/modules/role/internal/service/delete.go:32-75 | Same for the hard delete: only with the current etag |
| `RoleAnswers.CreateAnswers` | internal/modules/role/internal/service/create.go:29-62 | Run alone, an ACTIVE role with exactly the given permissions, unless name or id is in use, the app missing or a permission repeated |
| `RoleAnswers.UpdateAnswers` | internal/modules/role/internal/service/update.go:32-79 | The errors in their order without a change; no change when the patch asks for nothing new; else exactly the masked parts under a new version |
| `RoleAnswers.LifecycleAnswers` | internal/modules/role/internal/service/service.go:70-110 | The target status is reached, the version moves on a transition only, the permissions stay |
| `RoleAnswers.HardDeleteAnswers` | internal/modules/role/internal/service/delete.go:32-75 | Only the role with the given etag goes |
| `RoleAnswers.GetAnswers` | internal/modules/role/internal/service/get.go:17-23 | The role with exactly its permissions, or not found |
| `RoleAnswers.RolesGoUnderTheirEtag` | internal/modules/role/internal/mariadb/repository.go:160-187 | In every interleaving a role only ever goes with its app, or by a hard delete given the etag it has at that moment |

## Left out

- Servers, gateway, CORS, logging, configuration loading, migrations, seeding, bootstrap wiring other than the idle formula.
- JWT, bcrypt, SHA-256, UUID parsing, base64 and JSON: library code; page tokens are their cursors.
- Audit emission: it changes no state modelled here.
- Proto mappers, error tables, enum conversions: finite tables.
- Apps and service accounts as aggregates: same shape as users and roles. The service-account list orders by a column its cursor does not carry, so the list theorems do not apply to it.
- Account lockout: not wired into Login. The audit purge: easy.
- Database errors other than constraint violations: a call that hits one is an aborted call.
- The collation in ORDER BY, cursors and unique keys, DATETIME(6) truncation, proto-level input validation.
- HasRoleInApp and ListUserRoles: single reads.
- Masks and etags of UpdateRole and the empty-etag checks of the hard deletes: parsing as for UpdateUser.
- IdentityService.Service.LifecycleEmit: its success for a write that changes no column rests on counting matched rows; with the MySQL driver's default of counting changed rows a repeated Disable matches a row, changes none and answers not-found.
- RoleService.Service.LifecycleTransition: the same for a repeated Disable or Enable of a role.
- RoleStore.Repository.Update: the same for a write of a role as it is stored.
- UserStore.Repository.Update: the same for a write of a user as it is stored.
- SessionStore.Repository.Update: the same for a write of a session as it is stored.
- PasswordService.Service.ResetPassword: starts from the user found; the lookup of app and user by name is left out.

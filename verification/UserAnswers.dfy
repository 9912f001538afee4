/**
 What each call on users does and answers when it runs alone, said of the table before and after it,
 with no reference to the steps the call is made of; and what it takes to remove a user in every
 interleaving.
 */
module UserAnswers {
  import opened Prelude
  import opened UserDomain
  import opened UserStore
  import opened UserProtocol

  /** A request run to its end with nothing in between: its load and its save. */
  function RunAlone(t: Table, request: Request, ch: Choice): (Table, UserError) {
    var (t1, call1) := Exec(t, Call(request, Start), ch);
    var (t2, call2) := Exec(t1, call1, ch);
    (t2, if call2.stage.Finished? then call2.stage.result else Interrupted)
  }

  /** Another user has the e-mail or the username. */
  predicate InUse(t: Table, id: UserId, email: string, username: string) {
    exists i :: i in t && i != id && (t[i].profile.email == email || t[i].profile.username == username)
  }

  ghost predicate CreateAnswer(t: Table, profile: Profile, passwordHash: string, now: Time, ch: Choice, t': Table,
                               e: UserError)
  {
    if ch.id in t || InUse(t, ch.id, profile.email, profile.username) then e == ErrUserAlreadyExists && t' == t
    else e == NoError && t' == t[ch.id := User(ch.id, profile, Active, ch.etag, now, now, passwordHash, None)]
  }

  /** The status each lifecycle call is for. */
  function Reached(op: LifecycleOp): Status {
    match op case Disable => Blocked case Enable => Active case SoftDelete => Deleted
  }

  ghost predicate LifecycleAnswer(t: Table, id: UserId, op: LifecycleOp, now: Time, newEtag: Etag, t': Table,
                                  e: UserError)
  {
    if id !in t then e == ErrUserNotFound && t' == t
    else if t[id].status == Deleted && op != SoftDelete then e == ErrUserDeleted && t' == t
    else
      && e == NoError
      && t' == if t[id].status == Reached(op) then t
               else t[id := t[id].(status := Reached(op), etag := newEtag, updatedAt := now)]
  }

  function Masked(update: Option<string>, current: string): string {
    if update.Some? then update.value else current
  }

  /** The profile with the masked fields replaced. */
  function Merged(p: Patch, profile: Profile): Profile {
    Profile(Masked(p.email, profile.email), Masked(p.username, profile.username),
            Masked(p.displayName, profile.displayName), Masked(p.avatarURL, profile.avatarURL),
            Masked(p.locale, profile.locale), Masked(p.timezone, profile.timezone))
  }

  ghost predicate UpdateAnswer(t: Table, id: UserId, expected: Option<Etag>, p: Patch, now: Time, newEtag: Etag,
                               t': Table, e: UserError)
  {
    if id !in t then e == ErrUserNotFound && t' == t
    else if t[id].status == Deleted then e == ErrUserDeleted && t' == t
    else if expected.Some? && t[id].etag != expected.value then e == ErrEtagMismatch && t' == t
    else
      var merged := Merged(p, t[id].profile);
      if InUse(t, id, merged.email, merged.username) then e == ErrUserAlreadyExists && t' == t
      else
        && e == NoError
        && t' == if merged == t[id].profile then t
                 else t[id := t[id].(profile := merged, etag := newEtag, updatedAt := now)]
  }

  ghost predicate PasswordAnswer(t: Table, id: UserId, newHash: string, now: Time, newEtag: Etag, t': Table,
                                 e: UserError)
  {
    if id !in t then e == ErrUserNotFound && t' == t
    else if t[id].status == Deleted then e == ErrUserDeleted && t' == t
    else if t[id].status == Blocked then e == ErrUserBlocked && t' == t
    else if newHash == "" then e == ErrInvalidPasswordHash && t' == t
    else e == NoError && t' == t[id := t[id].(passwordHash := newHash, etag := newEtag, updatedAt := now)]
  }

  ghost predicate HardDeleteAnswer(t: Table, id: UserId, etag: Etag, t': Table, e: UserError) {
    if id !in t then e == ErrUserNotFound && t' == t
    else if t[id].status != Deleted then e == ErrUserNotDeleted && t' == t
    else if t[id].etag != etag then e == ErrEtagMismatch && t' == t
    else e == NoError && t' == t - {id}
  }

  lemma CreateAnswers(t: Table, profile: Profile, passwordHash: string, now: Time, ch: Choice)
    ensures var (t', e) := RunAlone(t, CreateUser(profile, passwordHash, now), ch);
      CreateAnswer(t, profile, passwordHash, now, ch, t', e)
  {
  }

  lemma LifecycleAnswers(t: Table, id: UserId, op: LifecycleOp, now: Time, ch: Choice)
    requires Consistent(t)
    ensures var (t', e) := RunAlone(t, Lifecycle(id, op, now), ch); LifecycleAnswer(t, id, op, now, ch.etag, t', e)
  {
  }

  lemma UpdateAnswers(t: Table, id: UserId, expected: Option<Etag>, p: Patch, now: Time, ch: Choice)
    requires Consistent(t)
    ensures var (t', e) := RunAlone(t, UpdateUser(id, expected, p, now), ch);
      UpdateAnswer(t, id, expected, p, now, ch.etag, t', e)
  {
    if id in t { assert Merged(p, t[id].profile) == p.On(t[id].profile); }
  }

  lemma PasswordAnswers(t: Table, id: UserId, newHash: string, now: Time, ch: Choice)
    requires Consistent(t)
    ensures var (t', e) := RunAlone(t, ReplacePassword(id, newHash, now), ch);
      PasswordAnswer(t, id, newHash, now, ch.etag, t', e)
  {
  }

  lemma HardDeleteAnswers(t: Table, id: UserId, etag: Etag, ch: Choice)
    ensures var (t', e) := RunAlone(t, HardDelete(id, etag), ch); HardDeleteAnswer(t, id, etag, t', e)
  {
  }

  // ----- in every interleaving ---------------------------------------------------------------

  /** A call about to delete has found its user soft-deleted, under the etag it was given. */
  lemma {:induction false} DeletionWasChecked(ws: seq<World>, acts: seq<Action>, k: nat, c: CallId) returns (j: nat)
    requires IsRun(ws, acts) && k < |ws| && c in ws[k].calls && ws[k].calls[c].stage.Delete?
    ensures var id, etag := ws[k].calls[c].stage.id, ws[k].calls[c].stage.etag;
      && ws[k].calls[c].request == HardDelete(id, etag)
      && j < k && id in ws[j].rows && ws[j].rows[id].status == Deleted && ws[j].rows[id].etag == etag
  {
    assert StepAt(ws, acts, k - 1);
    if c in ws[k-1].calls && ws[k-1].calls[c].stage.Delete? {
      j := DeletionWasChecked(ws, acts, k - 1, c);
    } else {
      j := k - 1;
    }
  }

  /** Only a delete takes a row out, and it takes out the row with the etag it carries. */
  lemma RowsLeaveByDelete(w: World, a: Action, id: UserId)
    requires Enabled(w, a) && id in w.rows && id !in Step(w, a).rows
    ensures a.Advance? && w.calls[a.c].stage == Delete(id, w.rows[id].etag)
  {
  }

  /** A user only ever goes by a hard delete, and is soft-deleted at that moment: the etag the call
      carries is that of the version it had found deleted. */
  lemma OnlySoftDeletedUsersGo(ws: seq<World>, acts: seq<Action>, k: nat, id: UserId)
    requires IsRun(ws, acts) && k < |acts| && id in ws[k].rows && id !in ws[k+1].rows
    ensures acts[k].Advance? && acts[k].c in ws[k].calls
    ensures ws[k].calls[acts[k].c].request == HardDelete(id, ws[k].rows[id].etag)
    ensures ws[k].rows[id].status == Deleted && ws[k+1].rows == ws[k].rows - {id}
  {
    assert StepAt(ws, acts, k);
    RowsLeaveByDelete(ws[k], acts[k], id);
    var j := DeletionWasChecked(ws, acts, k, acts[k].c);
    InvRun(ws, acts, j);
    InvRun(ws, acts, k);
    EtagNamesOneVersion(ws, acts, j, k, ws[j].rows[id], ws[k].rows[id]);
    assert ws[j].rows[id].Version().status == ws[k].rows[id].Version().status;
  }
}

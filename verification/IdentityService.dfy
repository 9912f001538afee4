/** The identity use cases as the service runs them: parse, load, mutate, save. */
module IdentityService {
  import opened Prelude
  import opened UserDomain
  import opened UserStore
  import opened UserProtocol
  import opened UserAnswers

  datatype PatchResult = Parsed(patch: Patch) | UnknownPath

  const NO_CHANGES: Patch := Patch(None, None, None, None, None, None)

  predicate KnownPath(path: string) {
    path in {"email", "username", "display_name", "avatar_url", "locale", "timezone"}
  }

  /** The field is patched exactly when the mask names it, with the request's value. */
  predicate Masked(mask: seq<string>, path: string, value: string, field: Option<string>) {
    field == if path in mask then Some(value) else None
  }

  predicate PatchFor(mask: seq<string>, values: Profile, p: Patch) {
    && Masked(mask, "email", values.email, p.email)
    && Masked(mask, "username", values.username, p.username)
    && Masked(mask, "display_name", values.displayName, p.displayName)
    && Masked(mask, "avatar_url", values.avatarURL, p.avatarURL)
    && Masked(mask, "locale", values.locale, p.locale)
    && Masked(mask, "timezone", values.timezone, p.timezone)
  }

  /** One mask entry. */
  function WithPath(p: Patch, path: string, values: Profile): Patch {
    if path == "email" then p.(email := Some(values.email))
    else if path == "username" then p.(username := Some(values.username))
    else if path == "display_name" then p.(displayName := Some(values.displayName))
    else if path == "avatar_url" then p.(avatarURL := Some(values.avatarURL))
    else if path == "locale" then p.(locale := Some(values.locale))
    else p.(timezone := Some(values.timezone))
  }

  lemma PathExtendsMask(mask: seq<string>, path: string, values: Profile, p: Patch)
    requires KnownPath(path) && PatchFor(mask, values, p)
    ensures PatchFor(mask + [path], values, WithPath(p, path, values))
  {
  }

  method BuildPatch(mask: seq<string>, values: Profile) returns (r: PatchResult)
    ensures r.Parsed? <==> forall i :: 0 <= i < |mask| ==> KnownPath(mask[i])
    ensures r.Parsed? ==> PatchFor(mask, values, r.patch)
  {
    var p := NO_CHANGES;
    for i := 0 to |mask|
      invariant forall k :: 0 <= k < i ==> KnownPath(mask[k])
      invariant PatchFor(mask[..i], values, p)
    {
      if !KnownPath(mask[i]) { return UnknownPath; }
      PathExtendsMask(mask[..i], mask[i], values, p);
      assert mask[..i] + [mask[i]] == mask[..i+1];
      p := WithPath(p, mask[i], values);
    }
    assert mask[..|mask|] == mask;
    return Parsed(p);
  }

  class Service {
    const users: Repository

    constructor (users: Repository)
      ensures this.users == users
    {
      this.users := users;
    }

    method Create(profile: Profile, passwordHash: string, now: Time, ch: Choice) returns (e: UserError)
      requires users.Valid()
      modifies users
      ensures users.Valid()
      ensures (users.rows, e) == RunAlone(old(users.rows), CreateUser(profile, passwordHash, now), ch)
      ensures CreateAnswer(old(users.rows), profile, passwordHash, now, ch, users.rows, e)
    {
      CreateAnswers(users.rows, profile, passwordHash, now, ch);
      e := users.Create(User(ch.id, profile, Active, ch.etag, now, now, passwordHash, None));
    }

    method UpdateUser(id: UserId, expected: Option<Etag>, patch: Patch, now: Time, ch: Choice) returns (e: UserError)
      requires users.Valid()
      modifies users
      ensures users.Valid()
      ensures (users.rows, e) == RunAlone(old(users.rows), Request.UpdateUser(id, expected, patch, now), ch)
      ensures UpdateAnswer(old(users.rows), id, expected, patch, now, ch.etag, users.rows, e)
    {
      UpdateAnswers(users.rows, id, expected, patch, now, ch);
      if id !in users.rows { return ErrUserNotFound; }
      var user := new Aggregate.Restore(users.rows[id]);
      e := user.Patch(patch, now, ch.etag);
      if !e.NoError? { return; }
      e := users.Update(user.Row(), expected);
    }

    /** Disable, Enable and SoftDelete: load, mutate, save without an etag; allowMissing turns a
        user that is not there to load into a success. */
    method LifecycleEmit(id: UserId, allowMissing: bool, op: LifecycleOp, now: Time, ch: Choice) returns (e: UserError)
      requires users.Valid()
      modifies users
      ensures users.Valid()
      ensures users.rows == RunAlone(old(users.rows), Lifecycle(id, op, now), ch).0
      ensures e == if allowMissing && id !in old(users.rows) then NoError
                   else RunAlone(old(users.rows), Lifecycle(id, op, now), ch).1
      ensures if allowMissing && id !in old(users.rows) then e == NoError && users.rows == old(users.rows)
              else LifecycleAnswer(old(users.rows), id, op, now, ch.etag, users.rows, e)
    {
      LifecycleAnswers(users.rows, id, op, now, ch);
      if id !in users.rows { return if allowMissing then NoError else ErrUserNotFound; }
      var user := new Aggregate.Restore(users.rows[id]);
      e := user.Lifecycle(op, now, ch.etag);
      if !e.NoError? { return; }
      e := users.Update(user.Row(), None);
    }

    method PermanentlyDelete(id: UserId, etag: Etag, ghost ch: Choice) returns (e: UserError)
      requires users.Valid()
      modifies users
      ensures users.Valid()
      ensures (users.rows, e) == RunAlone(old(users.rows), HardDelete(id, etag), ch)
      ensures HardDeleteAnswer(old(users.rows), id, etag, users.rows, e)
    {
      HardDeleteAnswers(users.rows, id, etag, ch);
      if id !in users.rows { return ErrUserNotFound; }
      var user := users.rows[id];
      if user.status != Deleted { return ErrUserNotDeleted; }
      if user.etag != etag { return ErrEtagMismatch; }
      e := users.Delete(id, Some(etag));
    }

    /** The password write of ChangePassword and ResetPassword: the etag is taken before SetPassword
        replaces it. */
    method StorePassword(id: UserId, newHash: string, now: Time, ch: Choice) returns (e: UserError)
      requires users.Valid()
      modifies users
      ensures users.Valid()
      ensures (users.rows, e) == RunAlone(old(users.rows), ReplacePassword(id, newHash, now), ch)
      ensures PasswordAnswer(old(users.rows), id, newHash, now, ch.etag, users.rows, e)
    {
      PasswordAnswers(users.rows, id, newHash, now, ch);
      if id !in users.rows { return ErrUserNotFound; }
      if users.rows[id].status == Deleted { return ErrUserDeleted; }
      if users.rows[id].status == Blocked { return ErrUserBlocked; }
      var user := new Aggregate.Restore(users.rows[id]);
      var preEtag := user.etag;
      e := user.StorePassword(newHash, now, ch.etag);
      if !e.NoError? { return; }
      e := users.UpdatePassword(user.Row(), preEtag);
    }
  }
}

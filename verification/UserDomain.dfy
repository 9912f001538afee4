/** The User aggregate: profile, status and credentials, versioned by an etag. */
module UserDomain {
  import opened Prelude

  datatype UserId = UserId(text: string)
  datatype Status = Active | Blocked | Deleted

  datatype Profile = Profile(
    email: string,
    username: string,
    displayName: string,
    avatarURL: string,
    locale: string,
    timezone: string)

  /** None: the field is not in the update mask. */
  datatype Patch = Patch(
    email: Option<string>,
    username: Option<string>,
    displayName: Option<string>,
    avatarURL: Option<string>,
    locale: Option<string>,
    timezone: Option<string>)
  {
    function On(p: Profile): Profile {
      Profile(Pick(email, p.email), Pick(username, p.username), Pick(displayName, p.displayName),
              Pick(avatarURL, p.avatarURL), Pick(locale, p.locale), Pick(timezone, p.timezone))
    }
  }

  function Pick(update: Option<string>, current: string): string {
    if update.Some? then update.value else current
  }

  /** An empty password hash means none is on file; None means the user never logged in. */
  datatype User = User(
    id: UserId,
    profile: Profile,
    status: Status,
    etag: Etag,
    createdAt: Time,
    updatedAt: Time,
    passwordHash: string,
    lastLoginAt: Option<Time>)
  {
    /** Everything an etag stands for; the last login is written without a new etag. */
    function Version(): User { this.(lastLoginAt := None) }

    function Bump(now: Time, newEtag: Etag): User { this.(updatedAt := now, etag := newEtag) }
  }

  /** How a call on users ends; Interrupted is a crash or a lost connection. */
  datatype UserError =
    | NoError
    | ErrUserNotFound
    | ErrUserAlreadyExists
    | ErrEtagMismatch
    | ErrUserDeleted
    | ErrUserNotDeleted
    | ErrUserBlocked
    | ErrInvalidPasswordHash
    | Interrupted

  datatype Mutation = Changed(user: User) | Refused(error: UserError) {
    function Error(): UserError { if Changed? then NoError else error }
  }

  datatype LifecycleOp = Disable | Enable | SoftDelete

  /** What the lifecycle mutators leave in memory; the target status already reached changes nothing. */
  function Transition(u: User, op: LifecycleOp, now: Time, newEtag: Etag): Mutation {
    match op
    case SoftDelete =>
      if u.status.Deleted? then Changed(u) else Changed(u.(status := Deleted).Bump(now, newEtag))
    case Disable =>
      if u.status.Deleted? then Refused(ErrUserDeleted)
      else if u.status.Blocked? then Changed(u) else Changed(u.(status := Blocked).Bump(now, newEtag))
    case Enable =>
      if u.status.Deleted? then Refused(ErrUserDeleted)
      else if u.status.Active? then Changed(u) else Changed(u.(status := Active).Bump(now, newEtag))
  }

  /** A patch that changes no field leaves the version alone. */
  function ApplyPatch(u: User, p: Patch, now: Time, newEtag: Etag): Mutation {
    if u.status.Deleted? then Refused(ErrUserDeleted)
    else if p.On(u.profile) == u.profile then Changed(u)
    else Changed(u.(profile := p.On(u.profile)).Bump(now, newEtag))
  }

  function SetPassword(u: User, hash: string, now: Time, newEtag: Etag): Mutation {
    if u.status.Deleted? then Refused(ErrUserDeleted)
    else if hash == "" then Refused(ErrInvalidPasswordHash)
    else Changed(u.(passwordHash := hash).Bump(now, newEtag))
  }

  /** One field of ApplyPatch: its new value and whether it differs. */
  method Overwrite(update: Option<string>, current: string) returns (value: string, changed: bool)
    ensures value == Pick(update, current)
    ensures changed <==> value != current
  {
    if update.Some? && update.value != current { return update.value, true; }
    return current, false;
  }

  /** The in-memory aggregate. A fresh etag comes from the generator with every mutation. */
  class Aggregate {
    const id: UserId
    const createdAt: Time
    var profile: Profile
    var status: Status
    var etag: Etag
    var updatedAt: Time
    var passwordHash: string
    var lastLoginAt: Option<Time>

    function Row(): User
      reads this
    {
      User(id, profile, status, etag, createdAt, updatedAt, passwordHash, lastLoginAt)
    }

    constructor Restore(row: User)
      ensures Row() == row
    {
      id, createdAt := row.id, row.createdAt;
      profile, status, etag, updatedAt := row.profile, row.status, row.etag, row.updatedAt;
      passwordHash, lastLoginAt := row.passwordHash, row.lastLoginAt;
    }

    method BumpVersion(now: Time, newEtag: Etag)
      modifies this
      ensures Row() == old(Row()).Bump(now, newEtag)
    {
      updatedAt := now;
      etag := newEtag;
    }

    method Lifecycle(op: LifecycleOp, now: Time, newEtag: Etag) returns (e: UserError)
      modifies this
      ensures e == Transition(old(Row()), op, now, newEtag).Error()
      ensures Row() == if e.NoError? then Transition(old(Row()), op, now, newEtag).user else old(Row())
      ensures e == if old(status) == Deleted && op != SoftDelete then ErrUserDeleted else NoError
      ensures e.NoError? ==>
        && (op == Disable ==> status == Blocked) && (op == Enable ==> status == Active)
        && (op == SoftDelete ==> status == Deleted)
      ensures Row() == old(Row()).(status := status, etag := etag, updatedAt := updatedAt)
      ensures if status != old(status) then etag == newEtag && updatedAt == now
              else etag == old(etag) && updatedAt == old(updatedAt)
    {
      if op != SoftDelete && status == Deleted { return ErrUserDeleted; }
      var target := match op case Disable => Blocked case Enable => Active case SoftDelete => Deleted;
      if status == target { return NoError; }
      status := target;
      BumpVersion(now, newEtag);
      return NoError;
    }

    method Patch(p: Patch, now: Time, newEtag: Etag) returns (e: UserError)
      modifies this
      ensures e == ApplyPatch(old(Row()), p, now, newEtag).Error()
      ensures Row() == if e.NoError? then ApplyPatch(old(Row()), p, now, newEtag).user else old(Row())
      ensures e == if old(status) == Deleted then ErrUserDeleted else NoError
      ensures e.NoError? ==>
        && profile.email == (if p.email.Some? then p.email.value else old(profile).email)
        && profile.username == (if p.username.Some? then p.username.value else old(profile).username)
        && profile.displayName == (if p.displayName.Some? then p.displayName.value else old(profile).displayName)
        && profile.avatarURL == (if p.avatarURL.Some? then p.avatarURL.value else old(profile).avatarURL)
        && profile.locale == (if p.locale.Some? then p.locale.value else old(profile).locale)
        && profile.timezone == (if p.timezone.Some? then p.timezone.value else old(profile).timezone)
      ensures Row() == old(Row()).(profile := profile, etag := etag, updatedAt := updatedAt)
      ensures if profile != old(profile) then etag == newEtag && updatedAt == now
              else etag == old(etag) && updatedAt == old(updatedAt)
    {
      if status == Deleted { return ErrUserDeleted; }
      var email, c1 := Overwrite(p.email, profile.email);
      var username, c2 := Overwrite(p.username, profile.username);
      var displayName, c3 := Overwrite(p.displayName, profile.displayName);
      var avatarURL, c4 := Overwrite(p.avatarURL, profile.avatarURL);
      var locale, c5 := Overwrite(p.locale, profile.locale);
      var timezone, c6 := Overwrite(p.timezone, profile.timezone);
      profile := Profile(email, username, displayName, avatarURL, locale, timezone);
      if c1 || c2 || c3 || c4 || c5 || c6 { BumpVersion(now, newEtag); }
      return NoError;
    }

    method StorePassword(hash: string, now: Time, newEtag: Etag) returns (e: UserError)
      modifies this
      ensures e == SetPassword(old(Row()), hash, now, newEtag).Error()
      ensures Row() == if e.NoError? then SetPassword(old(Row()), hash, now, newEtag).user else old(Row())
      ensures e == if old(status) == Deleted then ErrUserDeleted
                   else if hash == "" then ErrInvalidPasswordHash
                   else NoError
      ensures Row() ==
        if e.NoError? then old(Row()).(passwordHash := hash, etag := newEtag, updatedAt := now) else old(Row())
    {
      if status == Deleted { return ErrUserDeleted; }
      if hash == "" { return ErrInvalidPasswordHash; }
      passwordHash := hash;
      BumpVersion(now, newEtag);
      return NoError;
    }
  }
}

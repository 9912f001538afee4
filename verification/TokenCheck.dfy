/** Who is let in: the Validate use case and the authentication interceptor. */
module TokenCheck {
  import opened Prelude
  import opened SessionDomain
  import opened SessionStore

  datatype SubjectType = UserSubject | ServiceAccountSubject | UnknownSubject

  /** Claims of a token whose signature, issuer and lifetime the verifier accepted. `session` is
      None when the session id claim is not a UUID; no row has such an id. */
  datatype Claims = Claims(subject: string, kind: SubjectType, session: Option<SessionId>, expiresAt: Time)

  datatype Identity = Identity(subject: string, kind: SubjectType, session: Option<SessionId>)

  datatype Verdict<+T> = Accepted(value: T) | Refused

  /** Validate: `verified` is the verifier's answer for the presented token. */
  function Validate(t: Table, verified: Option<Claims>, now: Time): Verdict<(Identity, Time)> {
    match verified
    case None => Refused
    case Some(c) =>
      match c.kind
      case UserSubject =>
        (match c.session
         case None => Refused
         case Some(sid) =>
           match FindById(t, sid)
           case None => Refused
           case Some(s) =>
             if !s.IsActive(now) then Refused
             else Accepted((Identity(c.subject, c.kind, c.session), c.expiresAt)))
      case ServiceAccountSubject => Accepted((Identity(c.subject, c.kind, c.session), c.expiresAt))
      case UnknownSubject => Refused
  }

  /** The interceptor on a method that is not public. */
  function Admit(t: Table, verified: Option<Claims>, now: Time): Verdict<Identity> {
    match verified
    case None => Refused
    case Some(c) =>
      if c.kind.UnknownSubject? then Refused
      else if c.kind.UserSubject? then
        (match c.session
         case None => Refused
         case Some(sid) =>
           if sid in t && t[sid].IsActive(now) then Accepted(Identity(c.subject, c.kind, c.session))
           else Refused)
      else Accepted(Identity(c.subject, c.kind, c.session))
  }

  /** A user token for session `id`. */
  predicate NamesSession(c: Claims, id: SessionId) { c.kind.UserSubject? && c.session == Some(id) }

  /** No user token for session `id` gets through either check at time `now`. */
  ghost predicate LockedOut(t: Table, id: SessionId, now: Time) {
    forall c: Claims | NamesSession(c, id) ::
      Validate(t, Some(c), now).Refused? && Admit(t, Some(c), now).Refused?
  }

  /** Both checks let the same callers in, and report the same identity. */
  lemma ChecksAgree(t: Table, verified: Option<Claims>, now: Time)
    ensures Validate(t, verified, now).Accepted? <==> Admit(t, verified, now).Accepted?
    ensures Admit(t, verified, now).Accepted? ==>
      Validate(t, verified, now).value.0 == Admit(t, verified, now).value
  {
  }

  /** A user token gets through exactly when its session exists and is active. */
  lemma LockedOutIff(t: Table, id: SessionId, now: Time)
    ensures LockedOut(t, id, now) <==> (id !in t || !t[id].IsActive(now))
  {
    var c := Claims("", UserSubject, Some(id), 0);
    assert NamesSession(c, id);
  }

  /** Who gets through, exactly: a user token for a session that is there, unrevoked and before both of
      its deadlines, and every service-account token. Both checks report the claims' own subject. */
  lemma AcceptedIff(t: Table, c: Claims, now: Time)
    ensures
      var accepted :=
        || (c.kind == UserSubject && c.session.Some? && c.session.value in t && t[c.session.value].revokedAt.None?
            && now < t[c.session.value].expiresAt && now < t[c.session.value].refreshExpiresAt)
        || c.kind == ServiceAccountSubject;
      && Validate(t, Some(c), now) ==
           (if accepted then Accepted((Identity(c.subject, c.kind, c.session), c.expiresAt)) else Refused)
      && Admit(t, Some(c), now) == (if accepted then Accepted(Identity(c.subject, c.kind, c.session)) else Refused)
    ensures Validate(t, None, now) == Refused && Admit(t, None, now) == Refused
  {
  }
}

/**
 The Session aggregate: the server-side record behind one refresh-token chain.

 Session ids and refresh-token hashes are opaque values. `revokedAt` is None while the session
 is active; the program stores the zero time there, and its clock never returns that value.
 */
module SessionDomain {
  import opened Prelude

  datatype SessionId = SessionId(text: string)
  datatype UserId = UserId(text: string)
  datatype Hash = Hash(digest: string)

  datatype Session = Session(
    id: SessionId,
    userId: UserId,
    hash: Hash,
    userAgent: string,
    ipAddress: string,
    issuedAt: Time,
    expiresAt: Time,
    refreshExpiresAt: Time,
    lastSeenAt: Time,
    revokedAt: Option<Time>)
  {
    predicate IsRevoked() { revokedAt.Some? }

    predicate IsAbsoluteExpired(now: Time) { !(now < expiresAt) }

    predicate IsRefreshExpired(now: Time) { !(now < refreshExpiresAt) }

    predicate IsActive(now: Time) {
      !IsRevoked() && !IsAbsoluteExpired(now) && !IsRefreshExpired(now)
    }

    /** The session after Revoke: the first revocation time is kept. */
    function Revoke(now: Time): Session {
      if IsRevoked() then this else this.(revokedAt := Some(now))
    }

    /** The session after a RotateRefresh that was not rejected. */
    function Rotate(newHash: Hash, now: Time, newRefreshExpiresAt: Time): Session {
      this.(hash := newHash, refreshExpiresAt := newRefreshExpiresAt, lastSeenAt := now)
    }
  }

  /** The two session lifetimes; configuration validation makes both positive. */
  datatype Config = Config(refreshTTL: Time, rotationTTL: Time) {
    predicate Valid() { refreshTTL > 0 && rotationTTL > 0 }

    /** The session Login, ChangePassword and ResetPassword create. */
    function NewSession(id: SessionId, userId: UserId, hash: Hash, userAgent: string,
                        ipAddress: string, now: Time): Session
    {
      var expiresAt := now + refreshTTL;
      Session(id, userId, hash, userAgent, ipAddress, now, expiresAt,
              Min(now + rotationTTL, expiresAt), now, None)
    }

    /** The sliding deadline a Refresh at `now` computes; the hard cap is never extended. */
    function SlideWindow(s: Session, now: Time): Time { Min(now + rotationTTL, s.expiresAt) }
  }

  /** The in-memory aggregate the use cases load, mutate and write back. */
  class Aggregate {
    const id: SessionId
    const userId: UserId
    const issuedAt: Time
    const expiresAt: Time
    const userAgent: string
    const ipAddress: string
    var hash: Hash
    var refreshExpiresAt: Time
    var lastSeenAt: Time
    var revokedAt: Option<Time>

    /** The row this aggregate is written as. */
    function Row(): Session
      reads this
    {
      Session(id, userId, hash, userAgent, ipAddress, issuedAt, expiresAt, refreshExpiresAt,
              lastSeenAt, revokedAt)
    }

    constructor Restore(row: Session)
      ensures Row() == row
    {
      id, userId, hash := row.id, row.userId, row.hash;
      userAgent, ipAddress := row.userAgent, row.ipAddress;
      issuedAt, expiresAt := row.issuedAt, row.expiresAt;
      refreshExpiresAt, lastSeenAt, revokedAt := row.refreshExpiresAt, row.lastSeenAt, row.revokedAt;
    }

    method Revoke(now: Time)
      modifies this
      ensures Row() == old(Row()).Revoke(now)
      ensures Row().IsRevoked()
    {
      if revokedAt.Some? { return; }
      revokedAt := Some(now);
    }

    method TouchLastSeen(now: Time)
      modifies this
      ensures Row() == if old(Row()).IsRevoked() then old(Row()) else old(Row()).(lastSeenAt := now)
    {
      if revokedAt.Some? { return; }
      lastSeenAt := now;
    }

    /** Rejects a revoked session and leaves it unchanged. */
    method RotateRefresh(newHash: Hash, now: Time, newRefreshExpiresAt: Time) returns (ok: bool)
      modifies this
      ensures ok == !old(Row()).IsRevoked()
      ensures Row() == if ok then old(Row()).Rotate(newHash, now, newRefreshExpiresAt) else old(Row())
    {
      if revokedAt.Some? { return false; }
      hash := newHash;
      refreshExpiresAt := newRefreshExpiresAt;
      lastSeenAt := now;
      return true;
    }
  }
}

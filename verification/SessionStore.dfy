/**
 The sessions table: what each SQL statement does to the rows, and the repository that issues them.

 The table's keys are the primary key; `uk_sessions_refresh_token_hash` makes hashes unique.
 */
module SessionStore {
  import opened Ordering
  import opened Prelude
  import opened SessionDomain

  type Table = map<SessionId, Session>

  datatype WriteResult = Written | NoRow | Rejected

  /** The primary key and the unique key on refresh_token_hash. */
  ghost predicate Consistent(t: Table) {
    && (forall id :: id in t ==> t[id].id == id)
    && (forall i, j :: i in t && j in t && t[i].hash == t[j].hash ==> i == j)
  }

  /** Some row other than `id` holds hash `h`. */
  predicate HashTaken(t: Table, id: SessionId, h: Hash) {
    exists i :: i in t && i != id && t[i].hash == h
  }

  // ----- statements --------------------------------------------------------------------------

  /** INSERT; `userExists` is the foreign key on user_id. */
  function InsertRow(t: Table, s: Session, userExists: bool): (Table, WriteResult) {
    if s.id in t || HashTaken(t, s.id, s.hash) || !userExists then (t, Rejected)
    else (t[s.id := s], Written)
  }

  /** UPDATE of every column WHERE id = s.id. */
  function UpdateRow(t: Table, s: Session): (Table, WriteResult) {
    if s.id !in t then (t, NoRow)
    else if HashTaken(t, s.id, s.hash) then (t, Rejected)
    else (t[s.id := s], Written)
  }

  predicate RotateMatches(t: Table, id: SessionId, expected: Hash) {
    id in t && t[id].hash == expected
  }

  /** UPDATE of the hash, the sliding deadline and last_seen_at WHERE id and the old hash match. */
  function RotateRow(t: Table, s: Session, expected: Hash): (Table, WriteResult) {
    if !RotateMatches(t, s.id, expected) then (t, NoRow)
    else if HashTaken(t, s.id, s.hash) then (t, Rejected)
    else (t[s.id := t[s.id].Rotate(s.hash, s.lastSeenAt, s.refreshExpiresAt)], Written)
  }

  /** UPDATE of revoked_at for the user's rows that are not revoked yet. */
  function RevokeAllRows(t: Table, user: UserId, now: Time): Table {
    map id | id in t :: if t[id].userId == user then t[id].Revoke(now) else t[id]
  }

  /** Rows that vanish with their user (ON DELETE CASCADE). */
  function DropUserRows(t: Table, user: UserId): Table {
    map id | id in t && t[id].userId != user :: t[id]
  }

  ghost function FindByHash(t: Table, h: Hash): Option<Session> {
    if exists id :: id in t && t[id].hash == h
    then var id :| id in t && t[id].hash == h; Some(t[id])
    else None
  }

  function FindById(t: Table, id: SessionId): Option<Session> {
    if id in t then Some(t[id]) else None
  }

  /** ORDER BY issued_at DESC, id DESC; ids compare byte by byte. */
  predicate Newer(a: Session, b: Session) {
    b.issuedAt < a.issuedAt || (a.issuedAt == b.issuedAt && Less(b.id.text, a.id.text))
  }

  lemma NewerIsOrder(a: Session, b: Session, c: Session)
    ensures !Newer(a, a)
    ensures Newer(a, b) && Newer(b, c) ==> Newer(a, c)
    ensures a.id != b.id ==> Newer(a, b) || Newer(b, a)
  {
    LessIrreflexive(a.id.text);
    LessTotal(a.id.text, b.id.text);
    if Newer(a, b) && Newer(b, c) && a.issuedAt == c.issuedAt { LessTransitive(c.id.text, b.id.text, a.id.text); }
  }

  ghost predicate NewestFirst(out: seq<Session>) {
    forall i, j :: 0 <= i < j < |out| ==> Newer(out[i], out[j])
  }

  /** What SELECT ... WHERE user_id = user ORDER BY issued_at DESC, id DESC returns. */
  ghost predicate IsListing(t: Table, user: UserId, out: seq<Session>) {
    && (forall i :: 0 <= i < |out| ==> out[i].id in t && t[out[i].id] == out[i] && out[i].userId == user)
    && (forall i, j :: 0 <= i < j < |out| ==> out[i].id != out[j].id)
    && NewestFirst(out)
    && (forall id :: id in t && t[id].userId == user ==> t[id] in out)
  }

  // ----- repository --------------------------------------------------------------------------

  datatype RepoError = SessionNotFound | RefreshTokenReused | Internal
  datatype Reply<+T> = Success(value: T) | Failure(error: RepoError)

  class Repository {
    var rows: Table

    ghost predicate Valid() reads this { Consistent(rows) }

    constructor ()
      ensures Valid() && rows == map[]
    {
      rows := map[];
    }

    method Create(s: Session, userExists: bool) returns (r: Reply<()>)
      requires Valid()
      modifies this
      ensures Valid()
      ensures rows == InsertRow(old(rows), s, userExists).0
      ensures r == if InsertRow(old(rows), s, userExists).1.Written? then Success(()) else Failure(Internal)
    {
      if s.id in rows || HashTaken(rows, s.id, s.hash) || !userExists { return Failure(Internal); }
      rows := rows[s.id := s];
      return Success(());
    }

    method GetByID(id: SessionId) returns (r: Reply<Session>)
      requires Valid()
      ensures r == if id in rows then Success(rows[id]) else Failure(SessionNotFound)
    {
      if id !in rows { return Failure(SessionNotFound); }
      return Success(rows[id]);
    }

    method GetByRefreshHash(h: Hash) returns (r: Reply<Session>)
      requires Valid()
      ensures r == match FindByHash(rows, h) case Some(s) => Success(s) case None => Failure(SessionNotFound)
    {
      if id :| id in rows && rows[id].hash == h {
        return Success(rows[id]);
      }
      return Failure(SessionNotFound);
    }

    method Update(s: Session) returns (r: Reply<()>)
      requires Valid()
      modifies this
      ensures Valid()
      ensures rows == UpdateRow(old(rows), s).0
      ensures r == match UpdateRow(old(rows), s).1
                   case Written => Success(())
                   case NoRow => Failure(SessionNotFound)
                   case Rejected => Failure(Internal)
    {
      if s.id !in rows { return Failure(SessionNotFound); }
      if HashTaken(rows, s.id, s.hash) { return Failure(Internal); }
      rows := rows[s.id := s];
      return Success(());
    }

    /** Compare-and-swap on the old hash; it never looks at revoked_at. */
    method Rotate(s: Session, expected: Hash) returns (r: Reply<()>)
      requires Valid()
      modifies this
      ensures Valid()
      ensures rows == RotateRow(old(rows), s, expected).0
      ensures r == match RotateRow(old(rows), s, expected).1
                   case Written => Success(())
                   case NoRow => Failure(RefreshTokenReused)
                   case Rejected => Failure(Internal)
    {
      if s.id !in rows || rows[s.id].hash != expected { return Failure(RefreshTokenReused); }
      if HashTaken(rows, s.id, s.hash) { return Failure(Internal); }
      rows := rows[s.id := rows[s.id].(hash := s.hash, refreshExpiresAt := s.refreshExpiresAt,
                                       lastSeenAt := s.lastSeenAt)];
      return Success(());
    }

    method RevokeAllForUser(user: UserId, now: Time)
      requires Valid()
      modifies this
      ensures Valid()
      ensures rows == RevokeAllRows(old(rows), user, now)
      ensures rows.Keys == old(rows).Keys && forall id :: id in rows ==>
        rows[id] == if old(rows)[id].userId == user && old(rows)[id].revokedAt.None?
                    then old(rows)[id].(revokedAt := Some(now)) else old(rows)[id]
    {
      rows := map id | id in rows ::
        if rows[id].userId == user && rows[id].revokedAt.None?
        then rows[id].(revokedAt := Some(now)) else rows[id];
    }

    /** Collects the user's rows, each at its place in the order. */
    method ListByUser(user: UserId) returns (out: seq<Session>)
      requires Valid()
      ensures IsListing(rows, user, out)
    {
      out := [];
      var pending := rows.Keys;
      while pending != {}
        invariant pending <= rows.Keys
        invariant NewestFirst(out)
        invariant forall s :: s in out <==> s.id in rows && s.id !in pending && s == rows[s.id] && s.userId == user
        decreases pending
      {
        var id :| id in pending;
        pending := pending - {id};
        if rows[id].userId == user {
          out := Place(out, rows[id]);
        }
      }
      forall i, j | 0 <= i < j < |out| ensures out[i].id != out[j].id {
        assert out[i] in out && out[j] in out && Newer(out[i], out[j]);
        NewerIsOrder(out[i], out[j], out[i]);
      }
    }

    static method Place(s: seq<Session>, row: Session) returns (out: seq<Session>)
      requires NewestFirst(s) && forall x :: x in s ==> x.id != row.id
      ensures NewestFirst(out)
      ensures forall x :: x in out <==> x in s || x == row
    {
      var k := 0;
      while k < |s| && Newer(s[k], row)
        invariant 0 <= k <= |s|
        invariant forall i :: 0 <= i < k ==> Newer(s[i], row)
      {
        k := k + 1;
      }
      forall i | k <= i < |s| ensures Newer(row, s[i]) {
        NewerIsOrder(row, s[k], row);
        NewerIsOrder(row, s[k], s[i]);
      }
      PlacedIsOrdered(s, row, k);
      assert s == s[..k] + s[k..];
      out := s[..k] + [row] + s[k..];
    }
  }

  lemma PlacedIsOrdered(s: seq<Session>, row: Session, k: nat)
    requires NewestFirst(s) && k <= |s|
    requires forall i :: 0 <= i < k ==> Newer(s[i], row)
    requires forall i :: k <= i < |s| ==> Newer(row, s[i])
    ensures NewestFirst(s[..k] + [row] + s[k..])
  {
    var out := s[..k] + [row] + s[k..];
    forall i, j | 0 <= i < j < |out| ensures Newer(out[i], out[j]) {
      var x := if i < k then s[i] else if i == k then row else s[i-1];
      var y := if j < k then s[j] else if j == k then row else s[j-1];
      assert out[i] == x && out[j] == y;
    }
  }
}

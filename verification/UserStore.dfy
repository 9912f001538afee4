/** The users table and the repository's conditional and unconditional writes. */
module UserStore {
  import opened Prelude
  import opened UserDomain

  type Table = map<UserId, User>

  /** The primary key and the unique keys on e-mail and username. */
  ghost predicate Consistent(t: Table) {
    && (forall id :: id in t ==> t[id].id == id)
    && (forall i, j :: i in t && j in t && i != j ==>
          t[i].profile.email != t[j].profile.email && t[i].profile.username != t[j].profile.username)
  }

  datatype WriteResult = Written | NoRow | Duplicate

  /** Another row holds the e-mail or the username. */
  predicate NameTaken(t: Table, u: User) {
    exists id :: id in t && id != u.id &&
      (t[id].profile.email == u.profile.email || t[id].profile.username == u.profile.username)
  }

  /** WHERE id = ? [AND etag = ?]; None is the wildcard. */
  predicate Matches(t: Table, id: UserId, expected: Option<Etag>) {
    id in t && (expected.Some? ==> t[id].etag == expected.value)
  }

  function InsertRow(t: Table, u: User): (Table, WriteResult) {
    if u.id in t || NameTaken(t, u) then (t, Duplicate) else (t[u.id := u], Written)
  }

  /** UpdateUser and UpdateUserWithEtag: every column but id and created_at. */
  function UpdateRow(t: Table, u: User, expected: Option<Etag>): (Table, WriteResult) {
    if !Matches(t, u.id, expected) then (t, NoRow)
    else if NameTaken(t, u) then (t, Duplicate)
    else (t[u.id := u.(createdAt := t[u.id].createdAt)], Written)
  }

  /** UpdateUserPasswordWithEtag: password_hash, etag and updated_at only. */
  function UpdatePasswordRow(t: Table, u: User, expected: Etag): (Table, WriteResult) {
    if !Matches(t, u.id, Some(expected)) then (t, NoRow)
    else (t[u.id := t[u.id].(passwordHash := u.passwordHash, etag := u.etag, updatedAt := u.updatedAt)], Written)
  }

  /** DeleteUser and DeleteUserWithEtag. */
  function DeleteRow(t: Table, id: UserId, expected: Option<Etag>): (Table, WriteResult) {
    if !Matches(t, id, expected) then (t, NoRow) else (t - {id}, Written)
  }

  /** UpdateUserLastLoginAt. */
  function TouchRow(t: Table, id: UserId, now: Time): Table {
    if id in t then t[id := t[id].(lastLoginAt := Some(now))] else t
  }

  /** How 0 matched rows are reported; without an expected etag they mean the row is missing. */
  function Discriminate(t: Table, id: UserId, expected: Option<Etag>): UserError {
    if expected.None? || id !in t then ErrUserNotFound else ErrEtagMismatch
  }

  class Repository {
    var rows: Table

    ghost predicate Valid() reads this { Consistent(rows) }

    constructor ()
      ensures Valid() && rows == map[]
    {
      rows := map[];
    }

    method Create(u: User) returns (e: UserError)
      requires Valid()
      modifies this
      ensures Valid()
      ensures rows == InsertRow(old(rows), u).0
      ensures e == if InsertRow(old(rows), u).1.Written? then NoError else ErrUserAlreadyExists
    {
      if u.id in rows || NameTaken(rows, u) { return ErrUserAlreadyExists; }
      rows := rows[u.id := u];
      return NoError;
    }

    method Update(u: User, expected: Option<Etag>) returns (e: UserError)
      requires Valid()
      modifies this
      ensures Valid()
      ensures forall i :: i in rows ==> i in old(rows) && rows[i].createdAt == old(rows)[i].createdAt
      ensures forall i :: i in rows && i != u.id ==> rows[i] == old(rows)[i]
      ensures rows == UpdateRow(old(rows), u, expected).0
      ensures e == match UpdateRow(old(rows), u, expected).1
                   case Written => NoError
                   case NoRow => Discriminate(old(rows), u.id, expected)
                   case Duplicate => ErrUserAlreadyExists
    {
      var matched := u.id in rows && (expected.None? || rows[u.id].etag == expected.value);
      if matched {
        if NameTaken(rows, u) { return ErrUserAlreadyExists; }
        rows := rows[u.id := u.(createdAt := rows[u.id].createdAt)];
        return NoError;
      }
      if expected.None? { return ErrUserNotFound; }
      return if u.id in rows then ErrEtagMismatch else ErrUserNotFound;
    }

    method UpdatePassword(u: User, expected: Etag) returns (e: UserError)
      requires Valid()
      modifies this
      ensures Valid()
      ensures forall i :: i in rows ==>
        i in old(rows) && rows[i].profile == old(rows)[i].profile && rows[i].status == old(rows)[i].status
      ensures forall i :: i in rows && i != u.id ==> rows[i] == old(rows)[i]
      ensures rows == UpdatePasswordRow(old(rows), u, expected).0
      ensures e == if UpdatePasswordRow(old(rows), u, expected).1.Written? then NoError
                   else Discriminate(old(rows), u.id, Some(expected))
    {
      if u.id in rows && rows[u.id].etag == expected {
        rows := rows[u.id := rows[u.id].(passwordHash := u.passwordHash, etag := u.etag, updatedAt := u.updatedAt)];
        return NoError;
      }
      return if u.id in rows then ErrEtagMismatch else ErrUserNotFound;
    }

    method UpdateLastLoginAt(id: UserId, now: Time) returns (e: UserError)
      requires Valid()
      modifies this
      ensures Valid()
      ensures rows.Keys == old(rows).Keys && forall i :: i in rows ==> rows[i].Version() == old(rows)[i].Version()
      ensures rows == TouchRow(old(rows), id, now)
      ensures id in rows ==> rows == old(rows)[id := old(rows)[id].(lastLoginAt := Some(now))]
      ensures e == if id in old(rows) then NoError else ErrUserNotFound
    {
      if id !in rows { return ErrUserNotFound; }
      rows := rows[id := rows[id].(lastLoginAt := Some(now))];
      return NoError;
    }

    method Delete(id: UserId, expected: Option<Etag>) returns (e: UserError)
      requires Valid()
      modifies this
      ensures Valid()
      ensures rows == DeleteRow(old(rows), id, expected).0
      ensures e == if DeleteRow(old(rows), id, expected).1.Written? then NoError
                   else Discriminate(old(rows), id, expected)
    {
      if id in rows && (expected.None? || rows[id].etag == expected.value) {
        rows := rows - {id};
        return NoError;
      }
      if expected.None? { return ErrUserNotFound; }
      return if id in rows then ErrEtagMismatch else ErrUserNotFound;
    }
  }
}

/**
 The role_assignments table, what deletions cascade to it, and its repository.

 The table has foreign keys on the user and on the role, both ON DELETE CASCADE; its app_id is a
 plain column.
 */
module AccessStore {
  import opened Prelude
  import opened RoleDomain
  import opened RoleStore
  import opened UserDomain

  type Key = (UserId, RoleId)

  /** The most entries a bulk request or a batch check may have. */
  const BULK_OPS_CAP := 32

  datatype Assignment = Assignment(user: UserId, role: RoleId, app: AppId, grantedBy: Option<UserId>, grantedAt: Time) {
    function Key(): Key { (user, role) }
  }

  datatype Database = Database(users: map<UserId, UserDomain.Status>, tables: Tables, assignments: map<Key, Assignment>)

  // ----- statements --------------------------------------------------------------------------

  datatype InsertResult = Inserted | Duplicate | NoParent

  /** INSERT INTO role_assignments. */
  function InsertAssignment(db: Database, a: Assignment): (Database, InsertResult) {
    if a.Key() in db.assignments then (db, Duplicate)
    else if a.user !in db.users || a.role !in db.tables.roles then (db, NoParent)
    else (db.(assignments := db.assignments[a.Key() := a]), InsertResult.Inserted)
  }

  function DeleteAssignment(db: Database, k: Key): Database { db.(assignments := db.assignments - {k}) }

  /** DELETE FROM users: the user's assignments go too. */
  function DropUser(db: Database, user: UserId): Database {
    Database(db.users - {user}, db.tables, map k | k in db.assignments && k.0 != user :: db.assignments[k])
  }

  /** DELETE FROM roles for a set of roles: their permissions and assignments go too. */
  function DropRoles(db: Database, gone: set<RoleId>): Database {
    Database(db.users,
             db.tables.(roles := db.tables.roles - gone,
                        permissions := set g | g in db.tables.permissions && g.0 !in gone),
             map k | k in db.assignments && k.1 !in gone :: db.assignments[k])
  }

  /** DELETE FROM apps: the app's roles go too, and everything that goes with them. */
  function DropApp(db: Database, app: AppId): Database {
    var db' := DropRoles(db, set r | r in db.tables.roles && db.tables.roles[r].appId == app);
    db'.(tables := db'.tables.(apps := db'.tables.apps - {app}))
  }

  /** Both parents of every assignment exist and app_id is the app of the role. */
  ghost predicate Referential(db: Database) {
    && (forall r :: r in db.tables.roles ==> db.tables.roles[r].appId in db.tables.apps)
    && (forall g :: g in db.tables.permissions ==> g.0 in db.tables.roles)
    && (forall k :: k in db.assignments ==>
          && db.assignments[k].Key() == k
          && k.0 in db.users
          && k.1 in db.tables.roles
          && db.tables.roles[k.1].appId == db.assignments[k].app)
  }

  // ----- bulk writes -------------------------------------------------------------------------

  /** The inserts of one transaction, in order; NoParent aborts it. */
  function InsertAll(db: Database, rows: seq<Assignment>): Option<(Database, seq<bool>)> {
    if rows == [] then Some((db, []))
    else
      match InsertAll(db, rows[..|rows|-1])
      case None => None
      case Some((db', mask)) =>
        var (db'', r) := InsertAssignment(db', rows[|rows|-1]);
        if r.NoParent? then None else Some((db'', mask + [r == InsertResult.Inserted]))
  }

  function KeysOf(rows: seq<Assignment>): set<Key> { set a | a in rows :: a.Key() }

  predicate HasParents(db: Database, k: Key) { k.0 in db.users && k.1 in db.tables.roles }

  lemma KeysOfLast(rows: seq<Assignment>)
    requires rows != []
    ensures KeysOf(rows) == KeysOf(rows[..|rows|-1]) + {rows[|rows|-1].Key()}
  {
    assert rows == rows[..|rows|-1] + [rows[|rows|-1]];
  }

  /** BulkCreate is all or nothing: it fails exactly when a parent is missing. Otherwise exactly the
      requested pairs are added and the rows that were there are as they were. */
  lemma {:induction false} InsertAllMeans(db: Database, rows: seq<Assignment>)
    requires Referential(db)
    ensures InsertAll(db, rows).Some? <==> forall k :: k in KeysOf(rows) ==> HasParents(db, k)
    ensures InsertAll(db, rows).Some? ==> var db' := InsertAll(db, rows).value.0;
      && db' == db.(assignments := db'.assignments)
      && db'.assignments.Keys == db.assignments.Keys + KeysOf(rows)
      && (forall k :: k in db.assignments ==> db'.assignments[k] == db.assignments[k])
      && (forall k :: k in db'.assignments && k !in db.assignments ==>
            db'.assignments[k] in rows && db'.assignments[k].Key() == k)
  {
    if rows != [] {
      var init, last := rows[..|rows|-1], rows[|rows|-1];
      InsertAllMeans(db, init);
      KeysOfLast(rows);
      if InsertAll(db, init).Some? {
        var db1 := InsertAll(db, init).value.0;
        assert last.Key() in db1.assignments ==> HasParents(db, last.Key());
      }
    }
  }

  /** The mask says which requests created their row: the pair was new and not requested before. */
  lemma {:induction false} MaskMeans(db: Database, rows: seq<Assignment>, i: nat)
    requires Referential(db) && InsertAll(db, rows).Some? && i < |rows|
    ensures |InsertAll(db, rows).value.1| == |rows|
    ensures InsertAll(db, rows).value.1[i] <==>
      rows[i].Key() !in db.assignments && rows[i].Key() !in KeysOf(rows[..i])
  {
    var init := rows[..|rows|-1];
    InsertAllMeans(db, init);
    if i < |init| {
      MaskMeans(db, init, i);
      assert init[..i] == rows[..i];
    } else if init != [] {
      MaskMeans(db, init, 0);
    }
  }

  /** The deletes of one transaction. */
  function DeleteAll(db: Database, user: UserId, roles: seq<RoleId>): (db': Database)
    ensures db' ==
      db.(assignments := map k | k in db.assignments && !(k.0 == user && k.1 in roles) :: db.assignments[k])
  {
    if roles == [] then db else DeleteAssignment(DeleteAll(db, user, roles[..|roles|-1]), (user, roles[|roles|-1]))
  }

  // ----- repository --------------------------------------------------------------------------

  /** One row of the permission join. */
  datatype PermissionRow = PermissionRow(role: RoleId, permission: string)

  /** The join: permissions of ACTIVE roles the user holds, by the assignment's own app_id. */
  function ActivePermissions(db: Database, user: UserId, app: AppId): set<PermissionRow> {
    set g | g in db.tables.permissions
            && (user, g.0) in db.assignments && db.assignments[(user, g.0)].app == app
            && g.0 in db.tables.roles && db.tables.roles[g.0].status == RoleStatus.Active
      :: PermissionRow(g.0, g.1)
  }

  datatype AssignError = AssignmentNotFound | Internal

  class AssignmentRepository {
    var db: Database

    ghost predicate Valid() reads this { Referential(db) }

    constructor (db: Database)
      requires Referential(db)
      ensures Valid() && this.db == db
    {
      this.db := db;
    }

    /** A duplicate is not an error: the row that is there stays. Consistency rests on the caller's
        app_id. */
    method Create(a: Assignment) returns (created: bool, failed: bool)
      modifies this
      ensures old(Valid()) && (a.role in old(db).tables.roles ==> old(db).tables.roles[a.role].appId == a.app) ==>
        Valid()
      ensures forall k :: k in old(db).assignments ==>
        k in db.assignments && db.assignments[k] == old(db).assignments[k]
      ensures created ==> a.Key() !in old(db).assignments && db.assignments == old(db).assignments[a.Key() := a]
      ensures failed ==> a.user !in db.users || a.role !in db.tables.roles
      ensures !failed ==> a.Key() in db.assignments
      ensures db == InsertAssignment(old(db), a).0
      ensures created == InsertAssignment(old(db), a).1.Inserted? && failed == InsertAssignment(old(db), a).1.NoParent?
    {
      if a.Key() in db.assignments { return false, false; }
      if a.user !in db.users || a.role !in db.tables.roles { return false, true; }
      db := db.(assignments := db.assignments[a.Key() := a]);
      return true, false;
    }

    method Get(k: Key) returns (r: Option<Assignment>)
      ensures r == if k in db.assignments then Some(db.assignments[k]) else None
    {
      if k !in db.assignments { return None; }
      return Some(db.assignments[k]);
    }

    method Delete(k: Key) returns (deleted: bool)
      modifies this
      ensures db == DeleteAssignment(old(db), k) && deleted == (k in old(db).assignments)
      ensures k !in db.assignments && db.users == old(db).users && db.tables == old(db).tables
      ensures forall l :: l != k ==>
        (l in db.assignments <==> l in old(db).assignments)
        && (l in db.assignments ==> db.assignments[l] == old(db).assignments[l])
    {
      deleted := k in db.assignments;
      db := db.(assignments := db.assignments - {k});
    }

    /** The insert loop runs in one transaction. */
    method BulkCreate(rows: seq<Assignment>) returns (mask: Option<seq<bool>>)
      modifies this
      ensures match InsertAll(old(db), rows)
              case None => mask.None? && db == old(db)
              case Some((db', m)) => mask == Some(m) && db == db'
    {
      var saved := db;
      var out: seq<bool> := [];
      for i := 0 to |rows|
        invariant InsertAll(saved, rows[..i]) == Some((db, out))
      {
        assert rows[..i+1][..|rows[..i+1]|-1] == rows[..i];
        var created, failed := Create(rows[i]);
        if failed {
          AbortedStays(saved, rows, i + 1);
          db := saved;
          return None;
        }
        out := out + [created];
      }
      assert rows[..|rows|] == rows;
      return Some(out);
    }

    method BulkDelete(user: UserId, roles: seq<RoleId>)
      modifies this
      ensures db == DeleteAll(old(db), user, roles)
      ensures forall k: Key :: k in db.assignments <==> k in old(db).assignments && !(k.0 == user && k.1 in roles)
      ensures forall k :: k in db.assignments ==> db.assignments[k] == old(db).assignments[k]
    {
      for i := 0 to |roles|
        invariant db == DeleteAll(old(db), user, roles[..i])
      {
        assert roles[..i+1][..|roles[..i+1]|-1] == roles[..i];
        var _ := Delete((user, roles[i]));
      }
      assert roles[..|roles|] == roles;
    }

    method ListActivePermissions(user: UserId, app: AppId) returns (out: seq<PermissionRow>)
      ensures forall row :: row in out <==> row in ActivePermissions(db, user, app)
    {
      var pending := ActivePermissions(db, user, app);
      out := [];
      while pending != {}
        invariant pending <= ActivePermissions(db, user, app)
        invariant forall row :: row in out <==> row in ActivePermissions(db, user, app) - pending
        decreases pending
      {
        var row :| row in pending;
        pending := pending - {row};
        out := out + [row];
      }
    }
  }

  lemma {:induction false} AbortedStays(db: Database, rows: seq<Assignment>, i: nat)
    requires i <= |rows| && InsertAll(db, rows[..i]).None?
    ensures InsertAll(db, rows).None?
    decreases |rows|
  {
    if i < |rows| {
      var init := rows[..|rows|-1];
      assert init[..i] == rows[..i];
      AbortedStays(db, init, i);
    } else {
      assert rows[..i] == rows;
    }
  }
}

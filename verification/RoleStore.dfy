/**
 The roles and role_permissions tables, and the repository that writes both in one transaction.

 Columns compare byte for byte; ORDER BY permission is the order of Ordering.
 */
module RoleStore {
  import opened Prelude
  import opened RoleDomain

  /** The primary key of role_permissions is the whole pair. */
  type PermissionTable = set<(RoleId, string)>

  datatype Tables = Tables(apps: set<AppId>, roles: map<RoleId, Row>, permissions: PermissionTable)

  datatype RepoError = RoleNotFound | RoleAlreadyExists | EtagMismatch | Internal
  datatype Reply<+T> = Success(value: T) | Failure(error: RepoError)

  /** Primary keys, uk_roles_app_id_name and the two foreign keys. */
  ghost predicate Consistent(t: Tables) {
    && (forall id :: id in t.roles ==> t.roles[id].id == id && t.roles[id].appId in t.apps)
    && (forall i, j :: i in t.roles && j in t.roles && t.roles[i].appId == t.roles[j].appId && i != j
          ==> t.roles[i].name != t.roles[j].name)
    && (forall g :: g in t.permissions ==> g.0 in t.roles)
  }

  /** Some other role of the app has the name. */
  predicate NameTaken(roles: map<RoleId, Row>, id: RoleId, appId: AppId, name: string) {
    exists i :: i in roles && i != id && roles[i].appId == appId && roles[i].name == name
  }

  function PermissionsOf(t: PermissionTable, id: RoleId): set<string> { set g | g in t && g.0 == id :: g.1 }

  predicate NoDuplicates(s: seq<string>) { forall i, j :: 0 <= i < j < |s| ==> s[i] != s[j] }

  function AsSet(s: seq<string>): set<string> { set x | x in s }

  /** The list a role with this permission set is loaded with. */
  ghost predicate IsListing(s: seq<string>, permissions: set<string>) {
    IsSorted(s) && NoDuplicates(s) && AsSet(s) == permissions
  }

  /** There is only one such list. */
  lemma ListingIsUnique(s: seq<string>, t: seq<string>, permissions: set<string>)
    requires IsListing(s, permissions) && IsListing(t, permissions)
    ensures s == t
  {
    OnceEach(s);
    OnceEach(t);
    assert multiset(s) == multiset(AsSet(s)) == multiset(AsSet(t)) == multiset(t);
    SortedIsUnique(s, t);
  }

  lemma {:induction false} OnceEach(s: seq<string>)
    requires NoDuplicates(s)
    ensures multiset(s) == multiset(AsSet(s))
  {
    if s != [] {
      OnceEach(s[1..]);
      assert s == [s[0]] + s[1..];
      assert s[0] !in s[1..];
      assert AsSet(s) == {s[0]} + AsSet(s[1..]);
    }
  }

  /** The tables with this role's row and exactly this permission set; all else as before. */
  ghost predicate Wrote(before: Tables, after: Tables, row: Row, permissions: set<string>) {
    && after.apps == before.apps
    && after.roles == before.roles[row.id := row]
    && PermissionsOf(after.permissions, row.id) == permissions
    && (forall g: (RoleId, string) :: g.0 != row.id ==> (g in after.permissions <==> g in before.permissions))
  }

  class Repository {
    var db: Tables

    ghost predicate Valid() reads this { Consistent(db) }

    constructor (db: Tables)
      requires Consistent(db)
      ensures Valid() && this.db == db
    {
      this.db := db;
    }

    /** The insert loop of a transaction: it stops at the first duplicate. */
    static method InsertPermissions(t: PermissionTable, id: RoleId, list: seq<string>)
      returns (ok: bool, t': PermissionTable)
      ensures ok <==> NoDuplicates(list) && AsSet(list) !! PermissionsOf(t, id)
      ensures ok ==> t' == t + set p | p in list :: (id, p)
    {
      t' := t;
      for i := 0 to |list|
        invariant t' == t + set p | p in list[..i] :: (id, p)
        invariant NoDuplicates(list[..i]) && AsSet(list[..i]) !! PermissionsOf(t, id)
      {
        if (id, list[i]) in t' {
          if list[i] in list[..i] {
            var j :| 0 <= j < i && list[j] == list[i];
          } else {
            assert list[i] in AsSet(list) && list[i] in PermissionsOf(t, id);
          }
          return false, t';
        }
        assert list[..i+1] == list[..i] + [list[i]];
        assert list[i] !in PermissionsOf(t, id);
        t' := t' + {(id, list[i])};
      }
      assert list[..|list|] == list;
      ok := true;
    }

    /** SELECT permission ... ORDER BY permission. */
    static method GetRolePermissions(t: PermissionTable, id: RoleId) returns (list: seq<string>)
      ensures IsListing(list, PermissionsOf(t, id))
    {
      var pending := PermissionsOf(t, id);
      list := [];
      while pending != {}
        invariant pending <= PermissionsOf(t, id)
        invariant IsListing(list, PermissionsOf(t, id) - pending)
        decreases pending
      {
        var p :| p in pending;
        pending := pending - {p};
        InsertSorts(p, list);
        InsertKeepsListing(p, list);
        list := Insert(p, list);
      }
    }

    /** Row and permissions are stored together or not at all. */
    method Create(role: Role) returns (r: Reply<()>)
      requires Valid()
      modifies this
      ensures Valid()
      ensures r.Success? <==>
        && role.row.id !in old(db).roles
        && !NameTaken(old(db).roles, role.row.id, role.row.appId, role.row.name)
        && role.row.appId in old(db).apps
        && NoDuplicates(role.permissions)
      ensures r.Success? ==> Wrote(old(db), db, role.row, AsSet(role.permissions))
      ensures r.Failure? ==> db == old(db)
      ensures r == Failure(RoleAlreadyExists) <==>
        role.row.id in old(db).roles || NameTaken(old(db).roles, role.row.id, role.row.appId, role.row.name)
      ensures r.Failure? ==> r.error == RoleAlreadyExists || r.error == Internal
    {
      var saved := db;
      var row := role.row;
      if row.id in db.roles || NameTaken(db.roles, row.id, row.appId, row.name) { return Failure(RoleAlreadyExists); }
      if row.appId !in db.apps { return Failure(Internal); }
      db := db.(roles := db.roles[row.id := row]);
      assert PermissionsOf(db.permissions, row.id) == {};
      var ok, t := InsertPermissions(db.permissions, row.id, role.permissions);
      if !ok {
        db := saved;
        return Failure(Internal);
      }
      Inserted(db.permissions, t, row.id, role.permissions);
      db := db.(permissions := t);
      return Success(());
    }

    method GetByID(id: RoleId) returns (r: Reply<Role>)
      requires Valid()
      ensures r.Success? <==> id in db.roles
      ensures r.Success? ==>
        r.value.row == db.roles[id] && IsListing(r.value.permissions, PermissionsOf(db.permissions, id))
      ensures r.Failure? ==> r.error == RoleNotFound
    {
      if id !in db.roles { return Failure(RoleNotFound); }
      var list := GetRolePermissions(db.permissions, id);
      return Success(Role(db.roles[id], list));
    }

    /** `expected` is None for an unconditional write. A success leaves the written columns and
        exactly the given permissions; any failure, a duplicate permission included, leaves both
        tables as they were. The app and the creation time are not written. */
    method Update(role: Role, expected: Option<Etag>) returns (r: Reply<()>)
      requires Valid()
      modifies this
      ensures Valid()
      ensures var id := role.row.id;
        r.Success? <==>
          && id in old(db).roles
          && (expected.Some? ==> old(db).roles[id].etag == expected.value)
          && !NameTaken(old(db).roles, id, old(db).roles[id].appId, role.row.name)
          && NoDuplicates(role.permissions)
      ensures r.Success? ==>
        var was := old(db).roles[role.row.id];
        Wrote(old(db), db, role.row.(appId := was.appId, createdAt := was.createdAt), AsSet(role.permissions))
      ensures r.Failure? ==> db == old(db)
      ensures r == Failure(RoleNotFound) <==> role.row.id !in old(db).roles
      ensures r == Failure(EtagMismatch) <==>
        role.row.id in old(db).roles && expected.Some? && old(db).roles[role.row.id].etag != expected.value
      ensures r == Failure(RoleAlreadyExists) <==>
        && role.row.id in old(db).roles
        && (expected.Some? ==> old(db).roles[role.row.id].etag == expected.value)
        && NameTaken(old(db).roles, role.row.id, old(db).roles[role.row.id].appId, role.row.name)
      ensures r == Failure(Internal) <==>
        && role.row.id in old(db).roles
        && (expected.Some? ==> old(db).roles[role.row.id].etag == expected.value)
        && !NameTaken(old(db).roles, role.row.id, old(db).roles[role.row.id].appId, role.row.name)
        && !NoDuplicates(role.permissions)
    {
      var saved := db;
      var id := role.row.id;
      if id !in db.roles || (expected.Some? && db.roles[id].etag != expected.value) {
        if expected.None? || id !in db.roles { return Failure(RoleNotFound); }
        return Failure(EtagMismatch);
      }
      var was := db.roles[id];
      if NameTaken(db.roles, id, was.appId, role.row.name) { return Failure(RoleAlreadyExists); }
      db := db.(roles := db.roles[id := was.(name := role.row.name, description := role.row.description,
                                             status := role.row.status, etag := role.row.etag,
                                             updatedAt := role.row.updatedAt)]);
      var existing := GetRolePermissions(db.permissions, id);
      var desired := role.permissions;
      if existing == desired { return Success(()); }
      var cleared := set g | g in db.permissions && g.0 != id;
      assert PermissionsOf(cleared, id) == {};
      var ok, t := InsertPermissions(cleared, id, desired);
      if !ok {
        db := saved;
        return Failure(Internal);
      }
      Inserted(cleared, t, id, desired);
      db := db.(permissions := t);
      return Success(());
    }

    /** The role and, by cascade, its permissions; `expected` is None for an unconditional delete. */
    method Delete(id: RoleId, expected: Option<Etag>) returns (r: Reply<()>)
      requires Valid()
      modifies this
      ensures Valid()
      ensures r.Success? <==> id in old(db).roles && (expected.Some? ==> old(db).roles[id].etag == expected.value)
      ensures r.Success? ==>
        && db.apps == old(db).apps && db.roles == old(db).roles - {id}
        && forall g: (RoleId, string) :: g in db.permissions <==> g in old(db).permissions && g.0 != id
      ensures r.Failure? ==> db == old(db)
      ensures r == Failure(RoleNotFound) <==> id !in old(db).roles
      ensures r == Failure(EtagMismatch) <==> id in old(db).roles && r.Failure?
    {
      if id !in db.roles { return Failure(RoleNotFound); }
      if expected.Some? && db.roles[id].etag != expected.value { return Failure(EtagMismatch); }
      db := db.(roles := db.roles - {id}, permissions := set g | g in db.permissions && g.0 != id);
      return Success(());
    }
  }

  lemma {:induction false} InsertKeepsListing(p: string, list: seq<string>)
    requires NoDuplicates(list) && p !in list
    ensures NoDuplicates(Insert(p, list)) && AsSet(Insert(p, list)) == AsSet(list) + {p}
  {
    if list != [] && !AtMost(p, list[0]) {
      InsertKeepsListing(p, list[1..]);
      assert list == [list[0]] + list[1..];
      assert list[0] !in AsSet(list[1..]) + {p};
    }
  }

  lemma Inserted(t: PermissionTable, t': PermissionTable, id: RoleId, list: seq<string>)
    requires PermissionsOf(t, id) == {} && t' == t + set p | p in list :: (id, p)
    ensures PermissionsOf(t', id) == AsSet(list)
    ensures forall g: (RoleId, string) :: g.0 != id ==> (g in t' <==> g in t)
  {
    forall x ensures x in PermissionsOf(t', id) <==> x in AsSet(list) {
      if x in PermissionsOf(t', id) {
        assert (id, x) in t';
        assert (id, x) in t ==> x in PermissionsOf(t, id);
      }
      if x in AsSet(list) { assert (id, x) in t'; }
    }
  }

  /** Whatever was written is loaded again: a canonical list without duplicates comes back as it was. */
  lemma WrittenIsLoaded(before: Tables, after: Tables, role: Role, loaded: seq<string>)
    requires Wrote(before, after, role.row, AsSet(role.permissions))
    requires IsSorted(role.permissions) && NoDuplicates(role.permissions)
    requires IsListing(loaded, PermissionsOf(after.permissions, role.row.id))
    ensures Role(after.roles[role.row.id], loaded) == role
  {
    ListingIsUnique(loaded, role.permissions, AsSet(role.permissions));
  }
}

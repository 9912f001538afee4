/**
 The role use cases as the service runs them. Each is proved to leave in the tables, and to answer,
 exactly what its call of RoleProtocol does when nothing runs in between.
 */
module RoleService {
  import opened Prelude
  import opened RoleDomain
  import opened RoleStore
  import opened RoleProtocol
  import opened RoleAnswers

  /** `ch.listing` is what the permission query returns. */
  ghost predicate Lists(t: Tables, id: RoleId, ch: Choice) {
    id in t.roles ==> IsListing(ch.listing, PermissionsOf(t.permissions, id))
  }

  lemma NameUsedIs(t: Tables, id: RoleId, appId: AppId, name: string)
    ensures NameUsed(ContentsOf(t), id, appId, name) <==> NameTaken(t.roles, id, appId, name)
  {
    if NameTaken(t.roles, id, appId, name) {
      var i :| i in t.roles && i != id && t.roles[i].appId == appId && t.roles[i].name == name;
      assert i in ContentsOf(t);
    }
  }

  lemma DeletedContents(before: Tables, after: Tables, id: RoleId)
    requires after.roles == before.roles - {id}
    requires forall g: (RoleId, string) :: g in after.permissions <==> g in before.permissions && g.0 != id
    ensures ContentsOf(after) == ContentsOf(before) - {id}
  {
    forall i | i in after.roles ensures PermissionsOf(after.permissions, i) == PermissionsOf(before.permissions, i) {
      forall p ensures p in PermissionsOf(after.permissions, i) <==> p in PermissionsOf(before.permissions, i) {
        assert (i, p).0 == i;
        assert (i, p) in after.permissions <==> (i, p) in before.permissions;
      }
    }
  }

  lemma KeyedContents(t: Tables)
    requires Consistent(t)
    ensures Keyed(ContentsOf(t))
  {
  }

  class Service {
    const roles: Repository

    constructor (roles: Repository)
      ensures this.roles == roles
    {
      this.roles := roles;
    }

    method Load(id: RoleId, ghost ch: Choice) returns (r: Reply<Role>)
      requires roles.Valid() && Lists(roles.db, id, ch)
      ensures r == if id in roles.db.roles then Success(Role(roles.db.roles[id], ch.listing)) else Failure(RoleNotFound)
    {
      r := roles.GetByID(id);
      if r.Success? { ListingIsUnique(r.value.permissions, ch.listing, PermissionsOf(roles.db.permissions, id)); }
    }

    /** Row and permissions in one transaction, as SaveRole on the contents. */
    method Save(role: Role, expected: Option<Etag>) returns (r: Reply<()>)
      requires roles.Valid()
      modifies roles
      ensures roles.Valid()
      ensures (ContentsOf(roles.db), r) == SaveRole(ContentsOf(old(roles.db)), role, expected)
    {
      ghost var before := roles.db;
      if role.row.id in before.roles {
        NameUsedIs(before, role.row.id, before.roles[role.row.id].appId, role.row.name);
      }
      r := roles.Update(role, expected);
      if r.Success? {
        var was := before.roles[role.row.id];
        WroteContents(before, roles.db, role.row.(appId := was.appId, createdAt := was.createdAt),
          AsSet(role.permissions));
        assert r.value == ();
      }
    }

    method CreateRole(appId: AppId, name: string, description: string, permissions: seq<string>, now: Time,
                      ghost ch: Choice, id: RoleId, etag: Etag) returns (r: Reply<()>)
      requires roles.Valid() && ch.id == id && ch.etag == etag && ch.appExists == (appId in roles.db.apps)
      modifies roles
      ensures roles.Valid()
      ensures (ContentsOf(roles.db), Finished(r)) ==
        RunAlone(ContentsOf(old(roles.db)), Request.CreateRole(appId, name, description, permissions, now), ch)
      ensures CreateAnswer(ContentsOf(old(roles.db)), appId, name, description, permissions, now, ch,
                           ContentsOf(roles.db), Finished(r))
    {
      CreateAnswers(ContentsOf(roles.db), appId, name, description, permissions, now, ch);
      ghost var before := roles.db;
      var role := Role(Row(id, appId, name, description, Active, etag, now, now), Canonical(permissions));
      NameUsedIs(before, id, appId, name);
      r := roles.Create(role);
      if r.Success? {
        WroteContents(before, roles.db, role.row, AsSet(role.permissions));
        assert r.value == ();
      }
    }

    method GetRole(id: RoleId, ghost ch: Choice) returns (r: Reply<Role>)
      requires roles.Valid() && Lists(roles.db, id, ch)
      ensures (ContentsOf(roles.db), if r.Success? then Shown(r.value) else Finished(Failure(r.error))) ==
        RunAlone(ContentsOf(roles.db), Request.GetRole(id), ch)
      ensures GetAnswer(ContentsOf(roles.db), id, ContentsOf(roles.db),
                        if r.Success? then Shown(r.value) else Finished(Failure(r.error)))
    {
      GetAnswers(ContentsOf(roles.db), id, ch);
      r := Load(id, ch);
    }

    method UpdateRole(id: RoleId, expected: Option<Etag>, patch: Patch, now: Time, ghost ch: Choice, etag: Etag)
      returns (r: Reply<()>)
      requires roles.Valid() && Lists(roles.db, id, ch) && ch.etag == etag
      modifies roles
      ensures roles.Valid()
      ensures (ContentsOf(roles.db), Finished(r)) ==
        RunAlone(ContentsOf(old(roles.db)), Request.UpdateRole(id, expected, patch, now), ch)
      ensures UpdateAnswer(ContentsOf(old(roles.db)), id, expected, patch, now, etag, ContentsOf(roles.db), Finished(r))
    {
      KeyedContents(roles.db);
      UpdateAnswers(ContentsOf(roles.db), id, expected, patch, now, ch);
      var loaded := Load(id, ch);
      if loaded.Failure? { return Failure(loaded.error); }
      var role := new Aggregate.Restore(loaded.value);
      role.ApplyPatch(patch, now, etag);
      r := Save(role.Value(), expected);
    }

    /** Disable and Enable: load, switch, save without an etag. */
    method LifecycleTransition(id: RoleId, allowMissing: bool, target: RoleStatus, now: Time, ghost ch: Choice,
                               etag: Etag)
      returns (r: Reply<()>)
      requires roles.Valid() && Lists(roles.db, id, ch) && ch.etag == etag
      modifies roles
      ensures roles.Valid()
      ensures ContentsOf(roles.db) == RunAlone(ContentsOf(old(roles.db)), Lifecycle(id, target, now), ch).0
      ensures Finished(r) == if allowMissing && id !in old(roles.db).roles then Finished(Success(()))
                             else RunAlone(ContentsOf(old(roles.db)), Lifecycle(id, target, now), ch).1
      ensures if allowMissing && id !in old(roles.db).roles
              then r == Success(()) && ContentsOf(roles.db) == ContentsOf(old(roles.db))
              else LifecycleAnswer(ContentsOf(old(roles.db)), id, target, now, etag, ContentsOf(roles.db), Finished(r))
    {
      KeyedContents(roles.db);
      LifecycleAnswers(ContentsOf(roles.db), id, target, now, ch);
      var loaded := Load(id, ch);
      if loaded.Failure? { return if allowMissing then Success(()) else Failure(loaded.error); }
      var role := new Aggregate.Restore(loaded.value);
      if target == Disabled { role.Disable(now, etag); } else { role.Enable(now, etag); }
      r := Save(role.Value(), None);
    }

    method PermanentlyDelete(id: RoleId, etag: Etag, ghost ch: Choice) returns (r: Reply<()>)
      requires roles.Valid() && Lists(roles.db, id, ch)
      modifies roles
      ensures roles.Valid()
      ensures (ContentsOf(roles.db), Finished(r)) == RunAlone(ContentsOf(old(roles.db)), HardDelete(id, etag), ch)
      ensures HardDeleteAnswer(ContentsOf(old(roles.db)), id, etag, ContentsOf(roles.db), Finished(r))
    {
      HardDeleteAnswers(ContentsOf(roles.db), id, etag, ch);
      ghost var before := roles.db;
      var loaded := Load(id, ch);
      if loaded.Failure? { return Failure(loaded.error); }
      if loaded.value.row.etag != etag { return Failure(EtagMismatch); }
      r := roles.Delete(id, Some(etag));
      if r.Success? {
        DeletedContents(before, roles.db, id);
        assert r.value == ();
      }
    }
  }
}

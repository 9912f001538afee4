/**
 The grant and remove use cases as the service runs them. Each is proved to do to the database, and
 to answer, exactly what its call of AccessProtocol does when nothing runs in between.
 */
module AccessService {
  import opened AccessAnswers
  import opened AccessProtocol
  import opened AccessStore
  import opened Prelude
  import opened RoleDomain
  import opened UserDomain

  class Service {
    const repo: AssignmentRepository

    constructor (repo: AssignmentRepository)
      ensures this.repo == repo
    {
      this.repo := repo;
    }

    /** The seen-map rejects a role named twice. */
    method ParseBulkInput(roles: seq<RoleId>) returns (ok: bool)
      ensures ok <==> BulkInputOk(roles)
    {
      if |roles| == 0 { return false; }
      if |roles| > BULK_OPS_CAP { return false; }
      var seen := {};
      for i := 0 to |roles|
        invariant seen == set j | 0 <= j < i :: roles[j]
        invariant forall j, k :: 0 <= j < k < i ==> roles[j] != roles[k]
      {
        if roles[i] in seen { return false; }
        seen := seen + {roles[i]};
      }
      return true;
    }

    method LoadActiveRoleInApp(role: RoleId, expected: Option<AppId>) returns (fault: Option<Outcome>)
      ensures fault == RoleFault(repo.db, role, expected)
      ensures fault.None? <==>
        && role in repo.db.tables.roles && repo.db.tables.roles[role].status == RoleStatus.Active
        && (expected.Some? ==> repo.db.tables.roles[role].appId == expected.value)
      ensures fault == Some(Outcome.RoleNotFound) <==> role !in repo.db.tables.roles
      ensures fault == Some(RoleNotInApp) ==> repo.db.tables.roles[role].status == RoleStatus.Active
    {
      if role !in repo.db.tables.roles { return Some(Outcome.RoleNotFound); }
      var r := repo.db.tables.roles[role];
      if r.status != RoleStatus.Active { return Some(Outcome.RoleDisabled); }
      if expected.Some? && r.appId != expected.value { return Some(RoleNotInApp); }
      return None;
    }

    method RequireUserEligible(user: UserId) returns (fault: Option<Outcome>)
      ensures fault == UserFault(repo.db, user)
      ensures fault.None? <==> user in repo.db.users && repo.db.users[user] == UserDomain.Status.Active
      ensures fault == Some(UserNotFound) <==> user !in repo.db.users
    {
      if user !in repo.db.users { return Some(UserNotFound); }
      if repo.db.users[user] != UserDomain.Status.Active { return Some(UserNotEligible); }
      return None;
    }

    method GrantRoleToUser(user: UserId, role: RoleId, grantor: Option<UserId>, now: Time) returns (o: Outcome)
      modifies repo
      ensures (repo.db, o) == RunAlone(old(repo.db), Grant(user, role, grantor, now))
      ensures GrantAnswer(old(repo.db), user, role, grantor, now, repo.db, o)
    {
      GrantAnswers(repo.db, user, role, grantor, now);
      Unfold(repo.db, Grant(user, role, grantor, now));
      var fault := LoadActiveRoleInApp(role, None);
      if fault.Some? { return fault.value; }
      var target := Assignment(user, role, repo.db.tables.roles[role].appId, grantor, now);
      Unfold(repo.db, GrantUser(target));
      fault := RequireUserEligible(user);
      if fault.Some? { return fault.value; }
      Unfold(repo.db, GrantInsert(target));
      var created, failed := repo.Create(target);
      if failed { return Failed; }
      if !created {
        Unfold(repo.db, GrantReload(target.Key()));
        var existing := repo.Get((user, role));
        if existing.None? { return AssignmentMissing; }
        return Granted(existing.value, false);
      }
      return Granted(target, true);
    }

    /** All checks come before the one transactional write. */
    method BulkGrantRoles(b: Bulk) returns (o: Outcome)
      modifies repo
      ensures (repo.db, o) == RunAlone(old(repo.db), BulkGrant(b))
      ensures old(repo.Valid()) ==> BulkGrantAnswer(old(repo.db), b, repo.db, o)
    {
      if repo.Valid() { BulkGrantAnswers(repo.db, b); }
      Unfold(repo.db, BulkGrant(b));
      var ok := ParseBulkInput(b.roles);
      if !ok { return InvalidArgument; }
      if b.app !in repo.db.tables.apps { return AppNotFound; }
      Unfold(repo.db, BulkGrantUser(b));
      var fault := RequireUserEligible(b.user);
      if fault.Some? { return fault.value; }
      o := CheckAndGrant(b);
    }

    method CheckAndGrant(b: Bulk) returns (o: Outcome)
      modifies repo
      ensures (repo.db, o) == RunAlone(old(repo.db), Call.BulkGrantRoles(b, 0))
    {
      for i := 0 to |b.roles|
        invariant repo.db == old(repo.db)
        invariant RunAlone(repo.db, Call.BulkGrantRoles(b, i)) == RunAlone(old(repo.db), Call.BulkGrantRoles(b, 0))
      {
        Unfold(repo.db, Call.BulkGrantRoles(b, i));
        var fault := LoadActiveRoleInApp(b.roles[i], Some(b.app));
        if fault.Some? { return fault.value; }
      }
      Unfold(repo.db, Call.BulkGrantRoles(b, |b.roles|));
      o := InsertAndReload(b);
    }

    method InsertAndReload(b: Bulk) returns (o: Outcome)
      modifies repo
      ensures (repo.db, o) == RunAlone(old(repo.db), BulkInsert(b))
    {
      Unfold(repo.db, BulkInsert(b));
      var assignments := b.Rows();
      var mask := repo.BulkCreate(assignments);
      if mask.None? { return Failed; }
      var created := mask.value;
      ghost var db := repo.db;
      var i := 0;
      while i < |created| && i < |assignments|
        invariant repo.db == db && |assignments| == |b.roles|
        invariant 0 <= i <= |assignments|
        invariant RunAlone(db, BulkReload(assignments, created, i)) == RunAlone(old(repo.db), BulkInsert(b))
      {
        Unfold(db, BulkReload(assignments, created, i));
        if !created[i] {
          var existing := repo.Get(assignments[i].Key());
          if existing.None? { return AssignmentMissing; }
          assignments := assignments[i := existing.value];
        }
        i := i + 1;
      }
      Unfold(db, BulkReload(assignments, created, i));
      return BulkGranted(assignments, created);
    }

    method RemoveRoleFromUser(user: UserId, role: RoleId) returns (o: Outcome)
      modifies repo
      ensures (repo.db, o) == RunAlone(old(repo.db), Remove(user, role))
      ensures RemoveAnswer(old(repo.db), user, role, repo.db, o)
    {
      RemoveAnswers(repo.db, user, role);
      Unfold(repo.db, Remove(user, role));
      if user !in repo.db.users { return UserNotFound; }
      Unfold(repo.db, RemoveRole(user, role));
      if role !in repo.db.tables.roles { return Outcome.RoleNotFound; }
      Unfold(repo.db, RemoveDelete(user, role));
      var _ := repo.Delete((user, role));
      return Removed;
    }

    method BulkRemoveRoles(b: Bulk) returns (o: Outcome)
      modifies repo
      ensures (repo.db, o) == RunAlone(old(repo.db), BulkRemove(b))
      ensures BulkRemoveAnswer(old(repo.db), b, repo.db, o)
    {
      BulkRemoveAnswers(repo.db, b);
      Unfold(repo.db, BulkRemove(b));
      var ok := ParseBulkInput(b.roles);
      if !ok { return InvalidArgument; }
      if b.app !in repo.db.tables.apps { return AppNotFound; }
      Unfold(repo.db, BulkRemoveUser(b));
      if b.user !in repo.db.users { return UserNotFound; }
      o := CheckAndRemove(b);
    }

    /** A disabled role is removed as well. */
    method CheckAndRemove(b: Bulk) returns (o: Outcome)
      modifies repo
      ensures (repo.db, o) == RunAlone(old(repo.db), Call.BulkRemoveRoles(b, 0))
    {
      for i := 0 to |b.roles|
        invariant repo.db == old(repo.db)
        invariant RunAlone(repo.db, Call.BulkRemoveRoles(b, i)) == RunAlone(old(repo.db), Call.BulkRemoveRoles(b, 0))
      {
        Unfold(repo.db, Call.BulkRemoveRoles(b, i));
        if b.roles[i] !in repo.db.tables.roles { return Outcome.RoleNotFound; }
        if repo.db.tables.roles[b.roles[i]].appId != b.app { return RoleNotInApp; }
      }
      Unfold(repo.db, Call.BulkRemoveRoles(b, |b.roles|));
      Unfold(repo.db, BulkDelete(b));
      repo.BulkDelete(b.user, b.roles);
      return Removed;
    }
  }
}

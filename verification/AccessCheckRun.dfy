/**
 A permission check among everything else. It reads the user, the app and the join one after the other,
 and users, apps, roles and assignments may change in between.
 */
module AccessCheckRun {
  import opened AccessStore
  import opened AccessCheck
  import opened AccessProtocol
  import opened Prelude
  import opened RoleDomain
  import opened UserDomain

  lemma JoinMatches(db: Database, user: UserId, app: AppId, role: RoleId, permission: string)
    requires Referential(db)
    ensures Matches(ActivePermissions(db, user, app), role, permission) <==> Carries(db, user, app, role, permission)
  {
    if row :| row in ActivePermissions(db, user, app) && row.role == role && Covers(row.permission, permission) {
      assert (role, row.permission) in db.tables.permissions;
    }
    if Carries(db, user, app, role, permission) {
      var p :| (role, p) in db.tables.permissions && Covers(p, permission);
      assert (role, p).0 == role && PermissionRow(role, p) in ActivePermissions(db, user, app);
    }
  }

  /** With the reads at states i, j and k of a run: the answer is that of the tables at the join. An
      allowed user and app are there at the join too, even if only their earlier reads looked. */
  lemma AnswerIsTheJoins(ws: seq<World>, acts: seq<Action>, i: nat, j: nat, k: nat,
                         user: UserId, app: AppId, permission: string, r: Checked)
    requires IsRun(ws, acts) && i <= j <= k < |ws|
    requires IsAnswer(ws[i].db, ws[j].db, ws[k].db, user, app, permission, r) && r.Answer?
    ensures user in ws[i].db.users && app in ws[j].db.tables.apps
    ensures r.allowed <==> exists role :: Carries(ws[k].db, user, app, role, permission)
    ensures forall role :: role in r.matched <==> Carries(ws[k].db, user, app, role, permission)
    ensures r.allowed ==> user in ws[k].db.users && app in ws[k].db.tables.apps
  {
    AssignmentsStayReferential(ws, acts, k);
    forall role ensures role in r.matched <==> Carries(ws[k].db, user, app, role, permission) {
      JoinMatches(ws[k].db, user, app, role, permission);
    }
    if r.allowed { assert r.matched[0] in r.matched; }
  }

  /** The answer is one that all three reads at the join could have given exactly when the user and the
      app are still there; if one is gone, the check denies where it would have failed. */
  lemma AnswerIsCurrentIff(ws: seq<World>, acts: seq<Action>, i: nat, j: nat, k: nat,
                           user: UserId, app: AppId, permission: string, r: Checked)
    requires IsRun(ws, acts) && i <= j <= k < |ws|
    requires IsAnswer(ws[i].db, ws[j].db, ws[k].db, user, app, permission, r) && r.Answer?
    ensures IsAnswer(ws[k].db, ws[k].db, ws[k].db, user, app, permission, r) <==>
      user in ws[k].db.users && app in ws[k].db.tables.apps
    ensures user !in ws[k].db.users || app !in ws[k].db.tables.apps ==> r == Answer(false, [])
  {
    AnswerIsTheJoins(ws, acts, i, j, k, user, app, permission, r);
  }
}

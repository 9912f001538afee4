/**
 Permission checks: which requests are well-formed, which role permissions match one, and what the
 two check operations answer. Strings are byte strings.
 */
module AccessCheck {
  import opened AccessStore
  import opened Prelude
  import opened RoleDomain
  import RoleStore
  import opened UserDomain

  // ----- the request grammar -----------------------------------------------------------------

  predicate IsLower(c: char) { 'a' <= c <= 'z' }

  predicate IsWord(c: char) { IsLower(c) || '0' <= c <= '9' || c == '_' }

  /** [a-z][a-z0-9_]* */
  predicate IsIdent(s: string) { s != "" && IsLower(s[0]) && forall i :: 0 < i < |s| ==> IsWord(s[i]) }

  predicate IsPair(p: string, resource: string, action: string) {
    p == resource + ":" + action && IsIdent(resource) && IsIdent(action)
  }

  /** A concrete permission: resource:action, 3 to 64 characters. */
  ghost predicate Concrete(p: string) { 3 <= |p| <= 64 && exists resource, action :: IsPair(p, resource, action) }

  method IsLowerIdent(s: string) returns (ok: bool)
    ensures ok <==> IsIdent(s)
  {
    if s == "" { return false; }
    for i := 0 to |s|
      invariant forall j :: 0 <= j < i ==> if j == 0 then IsLower(s[j]) else IsWord(s[j])
    {
      var c := s[i];
      if 'a' <= c <= 'z' {
      } else if i > 0 && '0' <= c <= '9' {
      } else if i > 0 && c == '_' {
      } else {
        return false;
      }
    }
    return true;
  }

  /** The first position of `c`, or -1. */
  method IndexByte(s: string, c: char) returns (k: int)
    ensures -1 <= k < |s|
    ensures k == -1 ==> c !in s
    ensures k >= 0 ==> s[k] == c && c !in s[..k]
  {
    k := 0;
    while k < |s|
      invariant 0 <= k <= |s|
      invariant c !in s[..k]
    {
      if s[k] == c { return k; }
      k := k + 1;
    }
    return -1;
  }

  lemma ColonPosition(p: string, resource: string, action: string)
    requires IsPair(p, resource, action)
    ensures |resource| < |p| && p[|resource|] == ':'
    ensures forall i :: 0 <= i < |resource| ==> p[i] != ':'
    ensures p[..|resource|] == resource && p[|resource|+1..] == action
  {
  }

  /** The split of a concrete permission is unique. */
  lemma PairIsUnique(p: string, r1: string, a1: string, r2: string, a2: string)
    requires IsPair(p, r1, a1) && IsPair(p, r2, a2)
    ensures r1 == r2 && a1 == a2
  {
    ColonPosition(p, r1, a1);
    ColonPosition(p, r2, a2);
  }

  /** The first colon is where the resource ends. */
  lemma FirstColon(p: string, resource: string, action: string, colon: int)
    requires IsPair(p, resource, action) && -1 <= colon < |p|
    requires colon == -1 ==> ':' !in p
    requires colon >= 0 ==> p[colon] == ':' && ':' !in p[..colon]
    ensures 0 < colon < |p| - 1 && p[..colon] == resource && p[colon+1..] == action
  {
    ColonPosition(p, resource, action);
    assert p[|resource|] in p;
    assert forall i :: 0 <= i < colon ==> p[i] in p[..colon];
  }

  method ValidatePermissionRequest(p: string) returns (ok: bool)
    ensures ok <==> Concrete(p)
  {
    if |p| < 3 || |p| > 64 { return false; }
    var colon := IndexByte(p, ':');
    if colon <= 0 || colon == |p| - 1 {
      forall r, a ensures !IsPair(p, r, a) {
        if IsPair(p, r, a) { FirstColon(p, r, a, colon); }
      }
      return false;
    }
    var resource, action := p[..colon], p[colon+1..];
    var r := IsLowerIdent(resource);
    var a := IsLowerIdent(action);
    assert p == resource + ":" + action;
    if !r || !a {
      forall r', a' ensures !IsPair(p, r', a') {
        if IsPair(p, r', a') { FirstColon(p, r', a', colon); }
      }
      return false;
    }
    assert IsPair(p, resource, action);
    return true;
  }

  // ----- matching ----------------------------------------------------------------------------

  /** A role permission covers a request: it is the request, or the wildcard of its resource. */
  ghost predicate Covers(stored: string, requested: string) {
    || stored == requested
    || exists resource, action :: IsPair(requested, resource, action) && stored == resource + ":*"
  }

  predicate HasSuffix(s: string, suffix: string) { |suffix| <= |s| && s[|s|-|suffix|..] == suffix }

  /** The roles whose rows cover the request. */
  method MatchPermissions(rows: seq<PermissionRow>, requested: string) returns (out: set<RoleId>)
    requires Concrete(requested)
    ensures forall r :: r in out <==>
      exists i :: 0 <= i < |rows| && rows[i].role == r && Covers(rows[i].permission, requested)
  {
    ghost var res, act :| IsPair(requested, res, act);
    var colon := IndexByte(requested, ':');
    FirstColon(requested, res, act, colon);
    var resource := requested;
    if colon > 0 {
      resource := requested[..colon];
    }
    out := {};
    for i := 0 to |rows|
      invariant forall r :: r in out <==>
        exists j :: 0 <= j < i && rows[j].role == r && Covers(rows[j].permission, requested)
    {
      var row := rows[i];
      if row.permission == requested {
        out := out + {row.role};
        continue;
      }
      WildcardCovers(row.permission, requested, res, act);
      if HasSuffix(row.permission, ":*") {
        var rolePerm := row.permission[..|row.permission|-2];
        if rolePerm == resource {
          out := out + {row.role};
        }
      }
    }
  }

  lemma WildcardCovers(stored: string, requested: string, resource: string, action: string)
    requires IsPair(requested, resource, action) && stored != requested
    ensures Covers(stored, requested) <==> HasSuffix(stored, ":*") && stored[..|stored|-2] == resource
  {
    if Covers(stored, requested) {
      var r, a :| IsPair(requested, r, a) && stored == r + ":*";
      PairIsUnique(requested, r, a, resource, action);
    }
    if HasSuffix(stored, ":*") && stored[..|stored|-2] == resource {
      assert stored == resource + ":*";
    }
  }

  // ----- the two checks ----------------------------------------------------------------------

  /** Roles of `app`, ACTIVE and held by the user, that carry the request or its wildcard. */
  ghost predicate Carries(db: Database, user: UserId, app: AppId, role: RoleId, requested: string) {
    && (user, role) in db.assignments
    && role in db.tables.roles
    && db.tables.roles[role].appId == app
    && db.tables.roles[role].status == RoleStatus.Active
    && exists p :: (role, p) in db.tables.permissions && Covers(p, requested)
  }

  datatype CheckError = InvalidArgument | UserNotFound | AppNotFound

  /** The first thing a check complains about. */
  ghost function CheckFault(db: Database, user: UserId, app: AppId, requests: seq<string>): Option<CheckError> {
    if |requests| == 0 || |requests| > BULK_OPS_CAP || exists i :: 0 <= i < |requests| && !Concrete(requests[i])
    then Some(InvalidArgument)
    else if user !in db.users then Some(UserNotFound)
    else if app !in db.tables.apps then Some(AppNotFound)
    else None
  }

  datatype Checked = Denied(error: CheckError) | Answer(allowed: bool, matched: seq<RoleId>)
  datatype BatchChecked = BatchDenied(error: CheckError) | BatchAnswer(allowed: seq<bool>)

  /** Some row of the role covers the request. */
  ghost predicate Matches(rows: set<PermissionRow>, role: RoleId, requested: string) {
    exists row :: row in rows && row.role == role && Covers(row.permission, requested)
  }

  /** The answer of a check whose three reads, of the user, of the app and of the join, meet these
      states of the database. */
  ghost predicate IsAnswer(atUser: Database, atApp: Database, atJoin: Database, user: UserId, app: AppId,
                           permission: string, r: Checked)
  {
    if !Concrete(permission) then r == Denied(InvalidArgument)
    else if user !in atUser.users then r == Denied(UserNotFound)
    else if app !in atApp.tables.apps then r == Denied(AppNotFound)
    else
      && r.Answer? && (r.allowed <==> r.matched != [])
      && (forall role :: role in r.matched <==> Matches(ActivePermissions(atJoin, user, app), role, permission))
      && forall i, j :: 0 <= i < j < |r.matched| ==> r.matched[i] != r.matched[j]
  }

  /** In a consistent database the assignment's own app_id is the role's app. */
  lemma JoinIsCarries(db: Database, user: UserId, app: AppId, rows: seq<PermissionRow>, requested: string, role: RoleId)
    requires Referential(db)
    requires forall row :: row in rows <==> row in ActivePermissions(db, user, app)
    ensures (exists i :: 0 <= i < |rows| && rows[i].role == role && Covers(rows[i].permission, requested))
      <==> Carries(db, user, app, role, requested)
  {
    if i :| 0 <= i < |rows| && rows[i].role == role && Covers(rows[i].permission, requested) {
      assert rows[i] in rows;
      assert (role, rows[i].permission) in db.tables.permissions;
    }
    if Carries(db, user, app, role, requested) {
      var p :| (role, p) in db.tables.permissions && Covers(p, requested);
      var row := PermissionRow(role, p);
      assert (role, p).0 == role && row in ActivePermissions(db, user, app);
      var i :| 0 <= i < |rows| && rows[i] == row;
    }
  }

  lemma RowsMatch(rows: seq<PermissionRow>, all: set<PermissionRow>, role: RoleId, requested: string)
    requires forall row :: row in rows <==> row in all
    ensures (exists i :: 0 <= i < |rows| && rows[i].role == role && Covers(rows[i].permission, requested))
      <==> Matches(all, role, requested)
  {
    if row :| row in all && row.role == role && Covers(row.permission, requested) {
      assert row in rows;
    }
  }

  class Checker {
    const repo: AssignmentRepository

    constructor (repo: AssignmentRepository)
      ensures this.repo == repo
    {
      this.repo := repo;
    }

    method ParseCheckInput(user: UserId, app: AppId, requests: seq<string>) returns (ok: bool)
      ensures ok <==> 0 < |requests| <= BULK_OPS_CAP && forall i :: 0 <= i < |requests| ==> Concrete(requests[i])
    {
      if |requests| == 0 { return false; }
      if |requests| > BULK_OPS_CAP { return false; }
      for i := 0 to |requests|
        invariant forall j :: 0 <= j < i ==> Concrete(requests[j])
      {
        var valid := ValidatePermissionRequest(requests[i]);
        if !valid { return false; }
      }
      return true;
    }

    /** A blocked or deleted user's row is enough: only existence is checked. */
    method CheckPermission(user: UserId, app: AppId, permission: string) returns (r: Checked)
      requires repo.Valid()
      ensures CheckFault(repo.db, user, app, [permission]).Some? ==>
        r == Denied(CheckFault(repo.db, user, app, [permission]).value)
      ensures CheckFault(repo.db, user, app, [permission]).None? ==>
        && r.Answer?
        && (r.allowed <==> exists role :: Carries(repo.db, user, app, role, permission))
        && (forall role :: role in r.matched <==> Carries(repo.db, user, app, role, permission))
        && forall i, j :: 0 <= i < j < |r.matched| ==> r.matched[i] != r.matched[j]
      ensures IsAnswer(repo.db, repo.db, repo.db, user, app, permission, r)
    {
      var ok := ParseCheckInput(user, app, [permission]);
      assert [permission][0] == permission;
      if !ok { return Denied(InvalidArgument); }
      if user !in repo.db.users { return Denied(UserNotFound); }
      if app !in repo.db.tables.apps { return Denied(AppNotFound); }
      var rows := repo.ListActivePermissions(user, app);
      var found := MatchPermissions(rows, permission);
      forall role ensures role in found <==> Carries(repo.db, user, app, role, permission) {
        JoinIsCarries(repo.db, user, app, rows, permission, role);
      }
      forall role ensures role in found <==> Matches(ActivePermissions(repo.db, user, app), role, permission) {
        RowsMatch(rows, ActivePermissions(repo.db, user, app), role, permission);
      }
      var matched := [];
      var pending := found;
      while pending != {}
        invariant pending <= found
        invariant forall role :: role in matched <==> role in found - pending
        invariant forall i, j :: 0 <= i < j < |matched| ==> matched[i] != matched[j]
        decreases pending
      {
        var role :| role in pending;
        pending := pending - {role};
        assert forall i :: 0 <= i < |matched| ==> matched[i] in matched;
        matched := matched + [role];
      }
      assert |matched| > 0 ==> matched[0] in matched;
      return Answer(|matched| > 0, matched);
    }

    /** allowed[i] answers requests[i] as CheckPermission alone would. */
    method BatchCheckPermission(user: UserId, app: AppId, requests: seq<string>) returns (r: BatchChecked)
      requires repo.Valid()
      ensures CheckFault(repo.db, user, app, requests).Some? ==>
        r == BatchDenied(CheckFault(repo.db, user, app, requests).value)
      ensures CheckFault(repo.db, user, app, requests).None? ==>
        && r.BatchAnswer? && |r.allowed| == |requests|
        && forall i :: 0 <= i < |requests| ==>
             CheckFault(repo.db, user, app, [requests[i]]).None?
             && (r.allowed[i] <==> exists role :: Carries(repo.db, user, app, role, requests[i]))
    {
      var ok := ParseCheckInput(user, app, requests);
      if !ok { return BatchDenied(InvalidArgument); }
      if user !in repo.db.users { return BatchDenied(UserNotFound); }
      if app !in repo.db.tables.apps { return BatchDenied(AppNotFound); }
      var rows := repo.ListActivePermissions(user, app);
      var allowed: seq<bool> := [];
      for i := 0 to |requests|
        invariant |allowed| == i
        invariant forall j :: 0 <= j < i ==>
          (allowed[j] <==> exists role :: Carries(repo.db, user, app, role, requests[j]))
      {
        var found := MatchPermissions(rows, requests[i]);
        forall role ensures role in found <==> Carries(repo.db, user, app, role, requests[i]) {
          JoinIsCarries(repo.db, user, app, rows, requests[i], role);
        }
        assert found != {} <==> exists role :: Carries(repo.db, user, app, role, requests[i]);
        assert |found| > 0 <==> found != {};
        allowed := allowed + [|found| > 0];
      }
      return BatchAnswer(allowed);
    }
  }

  // ----- user status plays no part -----------------------------------------------------------

  /** A blocked user who holds one active role with the requested permission: consistent tables, a
      check without a fault, and the permission is carried, so CheckPermission answers allowed. */
  lemma BlockedUserIsAllowed()
    ensures exists db, user, app, permission ::
      && Referential(db) && user in db.users && db.users[user] == Blocked
      && CheckFault(db, user, app, [permission]).None?
      && exists role :: Carries(db, user, app, role, permission)
  {
    var user, role, app := UserId("u"), RoleId("r"), AppId("a");
    var permission := "users:read";
    var row := Row(role, app, "reader", "", RoleStatus.Active, Etag("e"), 0, 0);
    var tables := RoleStore.Tables({app}, map[role := row], {(role, permission)});
    var db := Database(map[user := Blocked], tables, map[(user, role) := Assignment(user, role, app, None, 0)]);
    assert Referential(db);
    assert Concrete(permission) by {
      assert permission == "users" + ":" + "read";
      assert IsPair(permission, "users", "read");
    }
    assert CheckFault(db, user, app, [permission]).None?;
    assert (role, permission) in tables.permissions && Covers(permission, permission);
    assert Carries(db, user, app, role, permission);
  }
}

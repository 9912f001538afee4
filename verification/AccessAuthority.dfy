/**
 What grants have met and removals leave in every interleaving: a pair is only inserted for a user and
 a role that were eligible when the call checked them, and an answered removal has removed.
 */
module AccessAuthority {
  import opened AccessAnswers
  import opened AccessProtocol
  import opened AccessStore
  import opened Prelude
  import opened RoleDomain
  import opened UserDomain

  // ----- removals ----------------------------------------------------------------------------

  /** The call removes these roles from this user. */
  predicate RemovesThese(call: Call, user: UserId, roles: seq<RoleId>) {
    match call
    case Remove(u, r) => u == user && roles == [r]
    case RemoveRole(u, r) => u == user && roles == [r]
    case RemoveDelete(u, r) => u == user && roles == [r]
    case BulkRemove(b) => b.user == user && b.roles == roles
    case BulkRemoveUser(b) => b.user == user && b.roles == roles
    case BulkRemoveRoles(b, _) => b.user == user && b.roles == roles
    case BulkDelete(b) => b.user == user && b.roles == roles
    case _ => false
  }

  /** It goes on with them, or answers; with Removed only when it has taken them in that very step, and
      with any other answer without a change. */
  lemma RemovalStep(db: Database, call: Call, user: UserId, roles: seq<RoleId>)
    requires RemovesThese(call, user, roles)
    ensures var (db', call') := Exec(db, call);
      if call' == Finished(Removed) then Taken(db, user, roles, db')
      else db' == db && (call'.Finished? || RemovesThese(call', user, roles))
  {
    match call
    case RemoveDelete(u, r) => DeletedIsTaken(db, u, r);
    case BulkDelete(b) => AllDeletedAreTaken(db, b.user, b.roles);
    case _ =>
  }

  lemma {:induction false} StillRemoves(ws: seq<World>, acts: seq<Action>, b: nat, k: nat, c: CallId, user: UserId,
                                        roles: seq<RoleId>)
    requires IsRun(ws, acts) && b < k < |ws| && acts[b].Begin? && acts[b].c == c
    requires RemovesThese(acts[b].request, user, roles)
    ensures c in ws[k].calls && (ws[k].calls[c].Finished? || RemovesThese(ws[k].calls[c], user, roles))
  {
    assert StepAt(ws, acts, k - 1);
    if b < k - 1 {
      StillRemoves(ws, acts, b, k - 1, c, user, roles);
      if acts[k-1] == Advance(c) { RemovalStep(ws[k-1].db, ws[k-1].calls[c], user, roles); }
    }
  }

  /** The step in which a call begun as a removal answers Removed leaves none of its pairs assigned, and
      everything else as it was. */
  lemma RemovedIsGone(ws: seq<World>, acts: seq<Action>, b: nat, k: nat, c: CallId, user: UserId, roles: seq<RoleId>)
    requires IsRun(ws, acts) && b < k < |acts| && acts[b].Begin? && acts[b].c == c
    requires RemovesThese(acts[b].request, user, roles)
    requires c in ws[k].calls && !ws[k].calls[c].Finished?
    requires c in ws[k+1].calls && ws[k+1].calls[c] == Finished(Removed)
    ensures Taken(ws[k].db, user, roles, ws[k+1].db)
  {
    StillRemoves(ws, acts, b, k, c, user, roles);
    assert StepAt(ws, acts, k);
    assert acts[k] == Advance(c);
    RemovalStep(ws[k].db, ws[k].calls[c], user, roles);
  }

  // ----- grants ------------------------------------------------------------------------------

  /** A single grant about to insert its row: the role was active and of the row's app at one state, and
      the user active at a later one. */
  lemma {:induction false} GrantUserWasChecked(ws: seq<World>, acts: seq<Action>, k: nat, c: CallId) returns (i: nat)
    requires IsRun(ws, acts) && k < |ws| && c in ws[k].calls && ws[k].calls[c].GrantUser?
    ensures var row := ws[k].calls[c].row;
      i < k && Grantable(ws[i].db, row.role) && ws[i].db.tables.roles[row.role].appId == row.app
  {
    assert StepAt(ws, acts, k - 1);
    if c in ws[k-1].calls && ws[k-1].calls[c].GrantUser? {
      i := GrantUserWasChecked(ws, acts, k - 1, c);
    } else {
      i := k - 1;
    }
  }

  lemma {:induction false} GrantWasChecked(ws: seq<World>, acts: seq<Action>, k: nat, c: CallId)
    returns (i: nat, j: nat)
    requires IsRun(ws, acts) && k < |ws| && c in ws[k].calls && ws[k].calls[c].GrantInsert?
    ensures var row := ws[k].calls[c].row;
      && i < j < k && Grantable(ws[i].db, row.role) && ws[i].db.tables.roles[row.role].appId == row.app
      && MayHold(ws[j].db, row.user)
  {
    assert StepAt(ws, acts, k - 1);
    if c in ws[k-1].calls && ws[k-1].calls[c].GrantInsert? {
      i, j := GrantWasChecked(ws, acts, k - 1, c);
    } else {
      j := k - 1;
      i := GrantUserWasChecked(ws, acts, j, c);
    }
  }

  /** Role r of the request was found sound at state i. */
  ghost predicate SoundAt(ws: seq<World>, b: Bulk, r: nat, i: nat)
    requires r < |b.roles| && i < |ws|
  {
    Sound(ws[i].db, b, r)
  }

  ghost predicate CheckedBefore(ws: seq<World>, b: Bulk, r: nat, k: nat)
    requires r < |b.roles| && k <= |ws|
  {
    exists i :: 0 <= i < k && SoundAt(ws, b, r, i)
  }

  /** A bulk grant past its user check, with the first n roles checked. */
  lemma {:induction false} RolesWereChecked(ws: seq<World>, acts: seq<Action>, k: nat, c: CallId) returns (j: nat)
    requires IsRun(ws, acts) && k < |ws| && c in ws[k].calls && ws[k].calls[c].BulkGrantRoles?
    ensures var b := ws[k].calls[c].bulk;
      && j < k && BulkInputOk(b.roles) && MayHold(ws[j].db, b.user)
      && forall r :: 0 <= r < ws[k].calls[c].checked && r < |b.roles| ==> CheckedBefore(ws, b, r, k)
  {
    assert StepAt(ws, acts, k - 1);
    if c in ws[k-1].calls && ws[k-1].calls[c].BulkGrantRoles? {
      j := RolesWereChecked(ws, acts, k - 1, c);
      var b, n := ws[k-1].calls[c].bulk, ws[k-1].calls[c].checked;
      assert ws[k].calls[c].bulk == b;
      forall r | 0 <= r < ws[k].calls[c].checked && r < |b.roles| ensures CheckedBefore(ws, b, r, k) {
        if r < n {
          assert CheckedBefore(ws, b, r, k - 1);
        } else {
          assert SoundAt(ws, b, r, k - 1);
        }
      }
    } else {
      j := k - 1;
      BulkInputWasOk(ws, acts, j, c);
    }
  }

  lemma {:induction false} BulkInputWasOk(ws: seq<World>, acts: seq<Action>, k: nat, c: CallId)
    requires IsRun(ws, acts) && k < |ws| && c in ws[k].calls && ws[k].calls[c].BulkGrantUser?
    ensures BulkInputOk(ws[k].calls[c].bulk.roles)
  {
    assert StepAt(ws, acts, k - 1);
    if c in ws[k-1].calls && ws[k-1].calls[c].BulkGrantUser? { BulkInputWasOk(ws, acts, k - 1, c); }
  }

  /** A bulk grant about to insert: its user was active and each of its roles there, active and of its
      app, each at some earlier state. */
  lemma {:induction false} BulkGrantWasChecked(ws: seq<World>, acts: seq<Action>, k: nat, c: CallId) returns (j: nat)
    requires IsRun(ws, acts) && k < |ws| && c in ws[k].calls && ws[k].calls[c].BulkInsert?
    ensures var b := ws[k].calls[c].bulk;
      && j < k && BulkInputOk(b.roles) && MayHold(ws[j].db, b.user)
      && forall r :: 0 <= r < |b.roles| ==> CheckedBefore(ws, b, r, k)
  {
    assert StepAt(ws, acts, k - 1);
    if c in ws[k-1].calls && ws[k-1].calls[c].BulkInsert? {
      j := BulkGrantWasChecked(ws, acts, k - 1, c);
    } else {
      j := RolesWereChecked(ws, acts, k - 1, c);
    }
    var b := ws[k].calls[c].bulk;
    forall r | 0 <= r < |b.roles| ensures CheckedBefore(ws, b, r, k) {
      assert CheckedBefore(ws, b, r, k - 1);
    }
  }
}

/**
 What each role call does and answers when it runs alone, said of the contents before and after it, with
 no reference to the steps the call is made of.
 */
module RoleAnswers {
  import opened Ordering
  import opened Prelude
  import opened RoleDomain
  import opened RoleStore
  import opened RoleProtocol

  /** A request run to its end: at most a row query, a permission query and a transaction. */
  function RunAlone(c: Contents, request: Request, ch: Choice): (Contents, Stage) {
    var (c1, call1) := Exec(c, Call(request, Start), ch);
    var (c2, call2) := Exec(c1, call1, ch);
    var (c3, call3) := Exec(c2, call2, ch);
    (c3, call3.stage)
  }

  /** Another role of the app has the name. */
  predicate InUse(c: Contents, id: RoleId, appId: AppId, name: string) {
    exists i :: i in c && i != id && c[i].row.appId == appId && c[i].row.name == name
  }

  ghost predicate CreateAnswer(c: Contents, appId: AppId, name: string, description: string, permissions: seq<string>,
                               now: Time, ch: Choice, c': Contents, o: Stage)
  {
    if ch.id in c || InUse(c, ch.id, appId, name) then o == Finished(Failure(RoleAlreadyExists)) && c' == c
    else if !ch.appExists || (exists i, j :: 0 <= i < j < |permissions| && permissions[i] == permissions[j])
    then o == Finished(Failure(Internal)) && c' == c
    else
      && o == Finished(Success(()))
      && c' == c[ch.id := Stored(Row(ch.id, appId, name, description, RoleStatus.Active, ch.etag, now, now),
                                 set p | p in permissions)]
  }

  /** The target status is reached; only a transition moves the version, and the permissions stay. */
  ghost predicate LifecycleAnswer(c: Contents, id: RoleId, target: RoleStatus, now: Time, newEtag: Etag, c': Contents,
                                  o: Stage)
  {
    if id !in c then o == Finished(Failure(RoleNotFound)) && c' == c
    else
      && o == Finished(Success(()))
      && c' == if c[id].row.status == target then c
               else c[id := Stored(c[id].row.(status := target, etag := newEtag, updatedAt := now), c[id].permissions)]
  }

  ghost predicate HardDeleteAnswer(c: Contents, id: RoleId, etag: Etag, c': Contents, o: Stage) {
    if id !in c then o == Finished(Failure(RoleNotFound)) && c' == c
    else if c[id].row.etag != etag then o == Finished(Failure(EtagMismatch)) && c' == c
    else o == Finished(Success(())) && c' == c - {id}
  }

  ghost predicate GetAnswer(c: Contents, id: RoleId, c': Contents, o: Stage) {
    c' == c &&
      if id !in c then o == Finished(Failure(RoleNotFound))
      else o.Shown? && o.role.row == c[id].row && IsListing(o.role.permissions, c[id].permissions)
  }

  predicate Repeats(s: seq<string>) { exists i, j :: 0 <= i < j < |s| && s[i] == s[j] }

  /** The patch asks for a name, a description or permissions the role does not have. */
  ghost predicate Asks(s: Stored, p: Patch) {
    || (p.name.Some? && p.name.value != s.row.name)
    || (p.description.Some? && p.description.value != s.row.description)
    || (p.permissions.Some? && (Repeats(p.permissions.value) || (set x | x in p.permissions.value) != s.permissions))
  }

  /** The masked parts replaced, under a new version. */
  function Merged(s: Stored, p: Patch, now: Time, newEtag: Etag): Stored {
    var name := if p.name.Some? then p.name.value else s.row.name;
    var description := if p.description.Some? then p.description.value else s.row.description;
    Stored(s.row.(name := name, description := description, etag := newEtag, updatedAt := now),
           if p.permissions.Some? then set x | x in p.permissions.value else s.permissions)
  }

  ghost predicate UpdateAnswer(c: Contents, id: RoleId, expected: Option<Etag>, p: Patch, now: Time, newEtag: Etag,
                               c': Contents, o: Stage)
  {
    if id !in c then o == Finished(Failure(RoleNotFound)) && c' == c
    else if expected.Some? && c[id].row.etag != expected.value then o == Finished(Failure(EtagMismatch)) && c' == c
    else
      var name := if p.name.Some? then p.name.value else c[id].row.name;
      if InUse(c, id, c[id].row.appId, name) then o == Finished(Failure(RoleAlreadyExists)) && c' == c
      else if p.permissions.Some? && Repeats(p.permissions.value) then o == Finished(Failure(Internal)) && c' == c
      else
        && o == Finished(Success(()))
        && c' == if !Asks(c[id], p) then c else c[id := Merged(c[id], p, now, newEtag)]
  }

  // ----- lists and sets ----------------------------------------------------------------------

  lemma {:induction false} CanonicalKeeps(p: seq<string>)
    ensures AsSet(Canonical(p)) == AsSet(p) && (NoDuplicates(Canonical(p)) <==> !Repeats(p))
  {
    CanonicalSorts(p);
    forall x ensures x in Canonical(p) <==> x in p {
      assert x in Canonical(p) <==> x in multiset(Canonical(p));
      assert x in p <==> x in multiset(p);
    }
    DuplicateFreeIsMultiset(p);
    DuplicateFreeIsMultiset(Canonical(p));
  }

  /** A list repeats nothing exactly when it holds everything once. */
  lemma DuplicateFreeIsMultiset(s: seq<string>)
    ensures NoDuplicates(s) <==> forall x :: multiset(s)[x] <= 1
    ensures NoDuplicates(s) <==> !Repeats(s)
  {
    if NoDuplicates(s) {
      OnceEach(s);
    } else {
      var i, j :| 0 <= i < j < |s| && s[i] == s[j];
      assert s == s[..j] + s[j..];
      assert s[i] in s[..j] && s[j] in s[j..];
      assert multiset(s)[s[i]] == multiset(s[..j])[s[i]] + multiset(s[j..])[s[i]];
    }
  }

  /** On the list a role is loaded with, a patch changes something exactly when it asks for something. */
  lemma AsksIffChanges(s: Stored, listing: seq<string>, p: Patch)
    requires IsListing(listing, s.permissions)
    ensures Changes(p, Role(s.row, listing)) <==> Asks(s, p)
  {
    if p.permissions.Some? {
      var q := p.permissions.value;
      DuplicateFreeIsMultiset(q);
      if !Repeats(q) && AsSet(q) == s.permissions {
        OnceEach(q);
        OnceEach(listing);
      }
      if multiset(q) == multiset(listing) {
        DuplicateFreeIsMultiset(listing);
        forall x ensures x in q <==> x in listing { assert x in multiset(q) <==> x in multiset(listing); }
      }
    }
  }

  // ----- the calls ---------------------------------------------------------------------------

  lemma CreateAnswers(c: Contents, appId: AppId, name: string, description: string, permissions: seq<string>, now: Time,
                      ch: Choice)
    ensures var (c', o) := RunAlone(c, CreateRole(appId, name, description, permissions, now), ch);
      CreateAnswer(c, appId, name, description, permissions, now, ch, c', o)
  {
    CanonicalKeeps(permissions);
    assert Repeats(permissions) <==> exists i, j :: 0 <= i < j < |permissions| && permissions[i] == permissions[j];
  }

  /** Ids are keys, and names unique within an app. */
  ghost predicate Keyed(c: Contents) {
    forall id :: id in c ==> c[id].row.id == id && !InUse(c, id, c[id].row.appId, c[id].row.name)
  }

  lemma LifecycleAnswers(c: Contents, id: RoleId, target: RoleStatus, now: Time, ch: Choice)
    requires Keyed(c) && (id in c ==> IsListing(ch.listing, c[id].permissions))
    ensures var (c', o) := RunAlone(c, Lifecycle(id, target, now), ch);
      LifecycleAnswer(c, id, target, now, ch.etag, c', o)
  {
  }

  lemma HardDeleteAnswers(c: Contents, id: RoleId, etag: Etag, ch: Choice)
    ensures var (c', o) := RunAlone(c, HardDelete(id, etag), ch); HardDeleteAnswer(c, id, etag, c', o)
  {
  }

  lemma GetAnswers(c: Contents, id: RoleId, ch: Choice)
    requires id in c ==> IsListing(ch.listing, c[id].permissions)
    ensures var (c', o) := RunAlone(c, GetRole(id), ch); GetAnswer(c, id, c', o)
  {
  }

  lemma UpdateAnswers(c: Contents, id: RoleId, expected: Option<Etag>, p: Patch, now: Time, ch: Choice)
    requires Keyed(c) && (id in c ==> IsListing(ch.listing, c[id].permissions))
    ensures var (c', o) := RunAlone(c, UpdateRole(id, expected, p, now), ch);
      UpdateAnswer(c, id, expected, p, now, ch.etag, c', o)
  {
    if id in c {
      AsksIffChanges(c[id], ch.listing, p);
      if p.permissions.Some? { CanonicalKeeps(p.permissions.value); }
      var copy := Patched(Role(c[id].row, ch.listing), p, now, ch.etag);
      assert NameUsed(c, id, c[id].row.appId, copy.row.name) <==> InUse(c, id, c[id].row.appId, copy.row.name);
      assert AsSet(ch.listing) == c[id].permissions;
    }
  }

  // ----- in every interleaving ---------------------------------------------------------------

  lemma {:induction false} DeleteIsAsRequested(ws: seq<World>, acts: seq<Action>, k: nat, c: CallId)
    requires IsRun(ws, acts) && k < |ws| && c in ws[k].calls && ws[k].calls[c].stage.Delete?
    ensures ws[k].calls[c].request == HardDelete(ws[k].calls[c].stage.id, ws[k].calls[c].stage.etag)
  {
    assert StepAt(ws, acts, k - 1);
    if c in ws[k-1].calls && ws[k-1].calls[c].stage.Delete? { DeleteIsAsRequested(ws, acts, k - 1, c); }
  }

  /** A role only ever goes with its app, or by a hard delete that was given the etag the role has at that
      moment. */
  lemma RolesGoUnderTheirEtag(ws: seq<World>, acts: seq<Action>, k: nat, id: RoleId)
    requires IsRun(ws, acts) && k < |acts| && id in ws[k].roles && id !in ws[k+1].roles
    ensures
      || (acts[k].DropRoles? && id in acts[k].gone)
      || (acts[k].Advance? && acts[k].c in ws[k].calls && ws[k+1].roles == ws[k].roles - {id}
          && ws[k].calls[acts[k].c].request == HardDelete(id, ws[k].roles[id].row.etag))
  {
    assert StepAt(ws, acts, k);
    if acts[k].Advance? && ws[k].calls[acts[k].c].stage.Delete? { DeleteIsAsRequested(ws, acts, k, acts[k].c); }
  }
}

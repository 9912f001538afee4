/** The Role aggregate: a named permission list of one app, versioned by an etag. */
module RoleDomain {
  import opened Ordering
  import opened Prelude

  datatype RoleId = RoleId(text: string)
  datatype AppId = AppId(text: string)
  datatype RoleStatus = Active | Disabled

  /** The row of a role; its permissions live in a table of their own. */
  datatype Row = Row(
    id: RoleId,
    appId: AppId,
    name: string,
    description: string,
    status: RoleStatus,
    etag: Etag,
    createdAt: Time,
    updatedAt: Time)

  datatype Role = Role(row: Row, permissions: seq<string>)

  /** None: the field is not in the update mask. */
  datatype Patch = Patch(name: Option<string>, description: Option<string>, permissions: Option<seq<string>>)

  // ----- canonical permission lists ----------------------------------------------------------

  predicate AtMost(a: string, b: string) { a == b || Less(a, b) }

  ghost predicate IsSorted(s: seq<string>) { forall i, j :: 0 <= i < j < |s| ==> AtMost(s[i], s[j]) }

  function Insert(x: string, s: seq<string>): seq<string> {
    if s == [] || AtMost(x, s[0]) then [x] + s else [s[0]] + Insert(x, s[1..])
  }

  /** canonicalPerms: a sorted copy; a nil list and an empty one are the same value here. */
  function Canonical(p: seq<string>): seq<string> {
    if p == [] then [] else Insert(p[0], Canonical(p[1..]))
  }

  lemma AtMostTransitive(a: string, b: string, c: string)
    requires AtMost(a, b) && AtMost(b, c)
    ensures AtMost(a, c)
  {
    if a != b && b != c { LessTransitive(a, b, c); }
  }

  lemma {:induction false} InsertHolds(x: string, s: seq<string>)
    ensures multiset(Insert(x, s)) == multiset(s) + multiset{x}
  {
    if s != [] && !AtMost(x, s[0]) {
      InsertHolds(x, s[1..]);
      assert s == [s[0]] + s[1..];
    }
  }

  lemma {:induction false} InsertSorts(x: string, s: seq<string>)
    requires IsSorted(s)
    ensures IsSorted(Insert(x, s)) && multiset(Insert(x, s)) == multiset(s) + multiset{x}
  {
    InsertHolds(x, s);
    if s == [] {
    } else if AtMost(x, s[0]) {
      forall j | 0 <= j < |s| ensures AtMost(x, s[j]) {
        if j > 0 { AtMostTransitive(x, s[0], s[j]); }
      }
    } else {
      LessTotal(x, s[0]);
      InsertSorts(x, s[1..]);
      var tail := Insert(x, s[1..]);
      forall j | 0 <= j < |tail| ensures AtMost(s[0], tail[j]) {
        assert tail[j] in multiset(tail);
      }
    }
  }

  lemma {:induction false} CanonicalSorts(p: seq<string>)
    ensures IsSorted(Canonical(p)) && multiset(Canonical(p)) == multiset(p)
  {
    if p != [] {
      CanonicalSorts(p[1..]);
      InsertSorts(p[0], Canonical(p[1..]));
      assert p == [p[0]] + p[1..];
    }
  }

  lemma FirstIsLeast(s: seq<string>, x: string)
    requires IsSorted(s) && x in s
    ensures AtMost(s[0], x)
  {
    var i :| 0 <= i < |s| && s[i] == x;
  }

  lemma DropFirst(s: seq<string>)
    requires s != []
    ensures multiset(s[1..]) == multiset(s) - multiset{s[0]}
  {
    assert s == [s[0]] + s[1..];
  }

  /** A sorted list is determined by what it holds. */
  lemma {:induction false} SortedIsUnique(s: seq<string>, t: seq<string>)
    requires IsSorted(s) && IsSorted(t) && multiset(s) == multiset(t)
    ensures s == t
  {
    assert |s| == |multiset(s)| == |t|;
    if s != [] {
      assert t[0] in multiset(s) && s[0] in multiset(t);
      FirstIsLeast(s, t[0]);
      FirstIsLeast(t, s[0]);
      LessAsymmetric(s[0], t[0]);
      DropFirst(s);
      DropFirst(t);
      SortedIsUnique(s[1..], t[1..]);
      assert s == [s[0]] + s[1..] && t == [t[0]] + t[1..];
    }
  }

  /** Two lists have the same canonical form exactly when one is a permutation of the other. */
  lemma CanonicalIdentifiesPermutations(p: seq<string>, q: seq<string>)
    ensures Canonical(p) == Canonical(q) <==> multiset(p) == multiset(q)
  {
    CanonicalSorts(p);
    CanonicalSorts(q);
    if multiset(p) == multiset(q) { SortedIsUnique(Canonical(p), Canonical(q)); }
  }

  // ----- mutators ----------------------------------------------------------------------------

  /** The patch asks for something the role does not already have; order does not matter. */
  predicate Changes(p: Patch, r: Role) {
    || (p.name.Some? && p.name.value != r.row.name)
    || (p.description.Some? && p.description.value != r.row.description)
    || (p.permissions.Some? && multiset(p.permissions.value) != multiset(r.permissions))
  }

  /** The role after ApplyPatch. */
  function Patched(r: Role, p: Patch, now: Time, newEtag: Etag): Role {
    if !Changes(p, r) then r
    else
      Role(r.row.(name := if p.name.Some? then p.name.value else r.row.name,
                  description := if p.description.Some? then p.description.value else r.row.description,
                  updatedAt := now, etag := newEtag),
           if p.permissions.Some? then Canonical(p.permissions.value) else r.permissions)
  }

  /** The role after Disable or Enable. */
  function Switched(r: Role, target: RoleStatus, now: Time, newEtag: Etag): Role {
    if r.row.status == target then r else r.(row := r.row.(status := target, updatedAt := now, etag := newEtag))
  }

  class Aggregate {
    const id: RoleId
    const appId: AppId
    const createdAt: Time
    var name: string
    var description: string
    var status: RoleStatus
    var etag: Etag
    var updatedAt: Time
    var permissions: seq<string>

    function Value(): Role
      reads this
    {
      Role(Row(id, appId, name, description, status, etag, createdAt, updatedAt), permissions)
    }

    constructor New(id: RoleId, appId: AppId, name: string, description: string, permissions: seq<string>,
                    now: Time, newEtag: Etag)
      ensures Value() == Role(Row(id, appId, name, description, Active, newEtag, now, now), this.permissions)
      ensures IsSorted(this.permissions) && multiset(this.permissions) == multiset(permissions)
    {
      CanonicalSorts(permissions);
      this.id, this.appId, this.name, this.description := id, appId, name, description;
      this.status, this.etag, this.createdAt, this.updatedAt := Active, newEtag, now, now;
      this.permissions := Canonical(permissions);
    }

    constructor Restore(r: Role)
      ensures Value() == r
    {
      id, appId, createdAt := r.row.id, r.row.appId, r.row.createdAt;
      name, description, status := r.row.name, r.row.description, r.row.status;
      etag, updatedAt, permissions := r.row.etag, r.row.updatedAt, r.permissions;
    }

    method BumpVersion(now: Time, newEtag: Etag)
      modifies this
      ensures Value() == old(Value()).(row := old(Value()).row.(updatedAt := now, etag := newEtag))
    {
      updatedAt := now;
      etag := newEtag;
    }

    /** Only a transition moves the version. */
    method Disable(now: Time, newEtag: Etag)
      modifies this
      ensures status.Disabled?
      ensures Value() == Switched(old(Value()), Disabled, now, newEtag)
    {
      if status == Disabled { return; }
      status := Disabled;
      BumpVersion(now, newEtag);
    }

    method Enable(now: Time, newEtag: Etag)
      modifies this
      ensures status.Active?
      ensures Value() == Switched(old(Value()), Active, now, newEtag)
    {
      if status == Active { return; }
      status := Active;
      BumpVersion(now, newEtag);
    }

    /** Nothing changes, the version included, exactly when the patch asks for nothing new; a
        permuted permission list asks for nothing new. Otherwise exactly the fields of the mask
        change and the list stays canonical. */
    method ApplyPatch(p: Patch, now: Time, newEtag: Etag)
      requires IsSorted(permissions)
      modifies this
      ensures IsSorted(permissions)
      ensures Value() == Patched(old(Value()), p, now, newEtag)
      ensures !Changes(p, old(Value())) ==> Value() == old(Value())
      ensures Changes(p, old(Value())) ==>
        && etag == newEtag && updatedAt == now && status == old(status)
        && name == (if p.name.Some? then p.name.value else old(name))
        && description == (if p.description.Some? then p.description.value else old(description))
        && multiset(permissions) ==
             (if p.permissions.Some? then multiset(p.permissions.value) else old(multiset(permissions)))
    {
      var changed := false;
      if p.name.Some? && p.name.value != name {
        name := p.name.value;
        changed := true;
      }
      if p.description.Some? && p.description.value != description {
        description := p.description.value;
        changed := true;
      }
      if p.permissions.Some? {
        var newPerms := Canonical(p.permissions.value);
        CanonicalSorts(p.permissions.value);
        if newPerms != permissions {
          if multiset(newPerms) == multiset(permissions) { SortedIsUnique(newPerms, permissions); }
          permissions := newPerms;
          changed := true;
        }
      }
      if changed {
        BumpVersion(now, newEtag);
      }
    }
  }
}

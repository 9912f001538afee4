/** The role list of one app: filters, search, order, cursor, and the permissions of each page. */
module RoleList {
  import opened Prelude
  import opened Keyset
  import Like
  import opened RoleDomain

  datatype RoleFields = RoleFields(appId: string, description: string, status: RoleStatus)

  /** `name` of the item is the role name. */
  type Row = Item<RoleFields>

  datatype ListQuery = ListQuery(
    appId: string,
    pageSize: int,
    after: Option<Cursor>,
    search: string,
    statuses: seq<RoleStatus>,
    orderBy: OrderBy)

  datatype Clause =
    | AppIs(appId: string)
    | StatusIn(statuses: seq<RoleStatus>)
    | AnyLike(pattern: string)
    | After(order: OrderBy, cursor: Cursor)

  predicate SearchFinds(col: Like.Collation, search: string, r: Row) {
    Like.Contains(col, r.name, search) || Like.Contains(col, r.data.description, search)
  }

  predicate Holds(col: Like.Collation, c: Clause, r: Row) {
    match c
    case AppIs(a) => r.data.appId == a
    case StatusIn(ss) => r.data.status in ss
    case AnyLike(p) => Like.Matches(col, p, r.name) || Like.Matches(col, p, r.data.description)
    case After(o, c) => KeysetClause(o, c).Holds(r)
  }

  function Under(col: Like.Collation): (Clause, Row) -> bool { (c, r) => Holds(col, c, r) }

  /** Roles of the app; without a status list both statuses are returned. */
  predicate Selected(col: Like.Collation, q: ListQuery, r: Row) {
    && r.data.appId == q.appId
    && (q.statuses != [] ==> r.data.status in q.statuses)
    && (q.search != "" ==> SearchFinds(col, q.search, r))
  }

  method BuildWhere(q: ListQuery, ghost col: Like.Collation) returns (where: seq<Clause>)
    ensures |where| > 0
    ensures forall r :: AllHold(Under(col), where, r) <==> Conjunction(r => Selected(col, q, r), q.orderBy, q.after)(r)
  {
    where := [AppIs(q.appId)];
    assert forall r :: AllHold(Under(col), where, r) <==> Holds(col, where[0], r);
    if |q.statuses| > 0 {
      AllHoldAppend(Under(col), where, StatusIn(q.statuses));
      where := where + [StatusIn(q.statuses)];
    }
    if q.search != "" {
      AllHoldAppend(Under(col), where, AnyLike(Like.SearchPattern(q.search)));
      where := where + [AnyLike("%" + Like.EscapeLike(q.search) + "%")];
    }
    if q.after.Some? {
      AllHoldAppend(Under(col), where, After(q.orderBy, q.after.value));
      where := where + [After(q.orderBy, q.after.value)];
    }
    forall r: Row ensures Holds(col, AnyLike(Like.SearchPattern(q.search)), r) <==> SearchFinds(col, q.search, r) {
      Like.SearchIsSubstring(col, q.search, r.name);
      Like.SearchIsSubstring(col, q.search, r.data.description);
    }
  }

  // ----- the permission join -----------------------------------------------------------------

  datatype Grant = Grant(roleId: string, permission: string)

  /** The permissions of one role, in the order of the join table's rows. */
  function PermissionsOf(table: seq<Grant>, roleId: string): seq<string> {
    if table == [] then []
    else if table[0].roleId == roleId then [table[0].permission] + PermissionsOf(table[1..], roleId)
    else PermissionsOf(table[1..], roleId)
  }

  lemma {:induction false} PermissionsAppend(table: seq<Grant>, g: Grant, roleId: string)
    ensures PermissionsOf(table + [g], roleId)
         == PermissionsOf(table, roleId) + if g.roleId == roleId then [g.permission] else []
  {
    if table == [] {
      assert table + [g] == [g];
      assert [g][1..] == [];
    } else {
      assert (table + [g])[0] == table[0] && (table + [g])[1..] == table[1..] + [g];
      PermissionsAppend(table[1..], g, roleId);
    }
  }

  /** Groups the rows of the page's roles; a role without permissions has no entry. */
  method LoadPermissionsForPage(ids: set<string>, table: seq<Grant>) returns (out: map<string, seq<string>>)
    ensures forall id :: id in ids ==>
      if id in out then out[id] == PermissionsOf(table, id) else PermissionsOf(table, id) == []
    ensures out.Keys <= ids
  {
    out := map[];
    for i := 0 to |table|
      invariant out.Keys <= ids
      invariant forall id :: id in ids ==>
        if id in out then out[id] == PermissionsOf(table[..i], id) else PermissionsOf(table[..i], id) == []
    {
      var g := table[i];
      assert table[..i+1] == table[..i] + [g];
      forall id ensures PermissionsOf(table[..i+1], id)
        == PermissionsOf(table[..i], id) + if g.roleId == id then [g.permission] else []
      {
        PermissionsAppend(table[..i], g, id);
      }
      if g.roleId in ids {
        out := out[g.roleId := (if g.roleId in out then out[g.roleId] else []) + [g.permission]];
      }
    }
    assert table[..|table|] == table;
  }

  datatype Result = Listed(page: Page<RoleFields>, permissions: map<string, seq<string>>) | BadQuery

  /** One page of the roles the request selects, with the permissions of each. */
  method List(rows: seq<Row>, table: seq<Grant>, q: ListQuery, col: Like.Collation) returns (r: Result)
    ensures r.BadQuery? <==> q.pageSize <= 0 || q.appId == ""
    ensures r.Listed? ==>
      && r.page == PageOf(rows, r => Selected(col, q, r), q.orderBy, q.after, q.pageSize)
      && forall i :: 0 <= i < |r.page.items| ==>
           var id := r.page.items[i].id;
           if id in r.permissions then r.permissions[id] == PermissionsOf(table, id) else PermissionsOf(table, id) == []
  {
    if q.pageSize <= 0 { return BadQuery; }
    if q.appId == "" { return BadQuery; }
    var where := BuildWhere(q, col);
    FilterSame(r => AllHold(Under(col), where, r), Conjunction(r => Selected(col, q, r), q.orderBy, q.after), rows);
    var result := Query(Under(col), rows, where, q.orderBy, q.pageSize + 1);
    var page := ScanPage(result, q.pageSize);
    var ids := set i | 0 <= i < |page.items| :: page.items[i].id;
    var permissions := LoadPermissionsForPage(ids, table);
    return Listed(page, permissions);
  }
}

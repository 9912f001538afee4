/** The user list: filters, search, order and cursor of one query. */
module UserList {
  import opened Prelude
  import opened Keyset
  import Like
  import opened UserDomain

  datatype UserFields = UserFields(email: string, displayName: string, status: Status)

  /** `name` of the item is the username. */
  type Row = Item<UserFields>

  datatype ListQuery = ListQuery(
    pageSize: int,
    after: Option<Cursor>,
    search: string,
    emails: seq<string>,
    usernames: seq<string>,
    displayNames: seq<string>,
    statuses: seq<Status>,
    orderBy: OrderBy)

  /** One AND-joined predicate of the WHERE clause, with its arguments. */
  datatype Clause =
    | StatusNot(status: Status)
    | StatusIn(statuses: seq<Status>)
    | AnyLike(pattern: string)
    | EmailIn(emails: seq<string>)
    | UsernameIn(usernames: seq<string>)
    | DisplayNameIn(displayNames: seq<string>)
    | After(order: OrderBy, cursor: Cursor)

  predicate SearchFinds(col: Like.Collation, search: string, r: Row) {
    || Like.Contains(col, r.data.email, search)
    || Like.Contains(col, r.name, search)
    || Like.Contains(col, r.data.displayName, search)
  }

  predicate Holds(col: Like.Collation, c: Clause, r: Row) {
    match c
    case StatusNot(s) => r.data.status != s
    case StatusIn(ss) => r.data.status in ss
    case AnyLike(p) =>
      || Like.Matches(col, p, r.data.email)
      || Like.Matches(col, p, r.name)
      || Like.Matches(col, p, r.data.displayName)
    case EmailIn(es) => col.Among(r.data.email, es)
    case UsernameIn(us) => col.Among(r.name, us)
    case DisplayNameIn(ds) => col.Among(r.data.displayName, ds)
    case After(o, c) => KeysetClause(o, c).Holds(r)
  }

  function Under(col: Like.Collation): (Clause, Row) -> bool { (c, r) => Holds(col, c, r) }

  /** What the request asks for: OR within a repeated field, AND across fields, deleted users only
      on request, and the search text anywhere in one of the three fields. */
  predicate Selected(col: Like.Collation, q: ListQuery, r: Row) {
    && StatusSelected(q, r)
    && (q.search != "" ==> SearchFinds(col, q.search, r))
    && (q.emails != [] ==> col.Among(r.data.email, q.emails))
    && (q.usernames != [] ==> col.Among(r.name, q.usernames))
    && (q.displayNames != [] ==> col.Among(r.data.displayName, q.displayNames))
  }

  lemma SearchHolds(col: Like.Collation, search: string, r: Row)
    ensures Holds(col, AnyLike(Like.SearchPattern(search)), r) <==> SearchFinds(col, search, r)
  {
    Like.SearchIsSubstring(col, search, r.data.email);
    Like.SearchIsSubstring(col, search, r.name);
    Like.SearchIsSubstring(col, search, r.data.displayName);
  }

  predicate StatusSelected(q: ListQuery, r: Row) {
    if q.statuses == [] then r.data.status != Deleted else r.data.status in q.statuses
  }

  /** The clauses on status and search text. */
  method StatusAndSearch(q: ListQuery, ghost col: Like.Collation) returns (where: seq<Clause>)
    ensures |where| > 0
    ensures forall r :: AllHold(Under(col), where, r) <==>
      StatusSelected(q, r) && (q.search != "" ==> SearchFinds(col, q.search, r))
  {
    where := [if q.statuses == [] then StatusNot(Deleted) else StatusIn(q.statuses)];
    assert forall r :: AllHold(Under(col), where, r) <==> Holds(col, where[0], r);
    if q.search != "" {
      AllHoldAppend(Under(col), where, AnyLike(Like.SearchPattern(q.search)));
      where := where + [AnyLike("%" + Like.EscapeLike(q.search) + "%")];
    }
    forall r ensures Holds(col, AnyLike(Like.SearchPattern(q.search)), r) <==> SearchFinds(col, q.search, r) {
      SearchHolds(col, q.search, r);
    }
  }

  method BuildWhere(q: ListQuery, ghost col: Like.Collation) returns (where: seq<Clause>)
    ensures |where| > 0
    ensures forall r :: AllHold(Under(col), where, r) <==> Conjunction(r => Selected(col, q, r), q.orderBy, q.after)(r)
  {
    where := StatusAndSearch(q, col);
    if |q.emails| > 0 {
      AllHoldAppend(Under(col), where, EmailIn(q.emails));
      where := where + [EmailIn(q.emails)];
    }
    if |q.usernames| > 0 {
      AllHoldAppend(Under(col), where, UsernameIn(q.usernames));
      where := where + [UsernameIn(q.usernames)];
    }
    if |q.displayNames| > 0 {
      AllHoldAppend(Under(col), where, DisplayNameIn(q.displayNames));
      where := where + [DisplayNameIn(q.displayNames)];
    }
    if q.after.Some? {
      AllHoldAppend(Under(col), where, After(q.orderBy, q.after.value));
      where := where + [After(q.orderBy, q.after.value)];
    }
  }

  datatype Result = Listed(page: Page<UserFields>) | BadPageSize

  /** One page of the users the request selects. */
  method List(rows: seq<Row>, q: ListQuery, col: Like.Collation) returns (r: Result)
    ensures r == if q.pageSize <= 0 then BadPageSize
                 else Listed(PageOf(rows, r => Selected(col, q, r), q.orderBy, q.after, q.pageSize))
  {
    if q.pageSize <= 0 { return BadPageSize; }
    var where := BuildWhere(q, col);
    var limit := q.pageSize + 1;
    FilterSame(r => AllHold(Under(col), where, r), Conjunction(r => Selected(col, q, r), q.orderBy, q.after), rows);
    var result := Query(Under(col), rows, where, q.orderBy, limit);
    var page := ScanPage(result, q.pageSize);
    return Listed(page);
  }
}

/**
 Keyset pagination: ORDER BY, LIMIT and the "strictly after the cursor" predicate.

 The user list and the role list share this shape; `name` is the username or the role name. The
 database's comparison of ids and names is taken to be that of Ordering.
 */
module Keyset {
  import opened Prelude
  import opened Ordering

  datatype Item<+T> = Item(createdAt: Time, id: string, name: string, data: T)

  datatype Cursor = Cursor(createdAt: Time, id: string, name: string)

  datatype OrderBy = Unspecified | CreatedAtDesc | CreatedAtAsc | IdDesc | IdAsc | NameDesc | NameAsc

  datatype Column = CreatedAt | Id | Name

  datatype Value = Num(n: int) | Text(s: string)

  // ----- SQL ---------------------------------------------------------------------------------

  predicate ValueLess(a: Value, b: Value) {
    match (a, b)
    case (Num(x), Num(y)) => x < y
    case (Text(x), Text(y)) => Less(x, y)
    case _ => false
  }

  function Field<T>(r: Item<T>, c: Column): Value {
    match c case CreatedAt => Num(r.createdAt) case Id => Text(r.id) case Name => Text(r.name)
  }

  datatype Term = Term(column: Column, desc: bool)

  /** r comes strictly before s under ORDER BY terms. */
  predicate Before<T>(terms: seq<Term>, r: Item<T>, s: Item<T>) {
    if terms == [] then false
    else
      var a, b := Field(r, terms[0].column), Field(s, terms[0].column);
      (if terms[0].desc then ValueLess(b, a) else ValueLess(a, b)) || (a == b && Before(terms[1..], r, s))
  }

  /** Row-value comparison (a, b, ...) < (c, d, ...). */
  predicate TupleLess(a: seq<Value>, b: seq<Value>)
    requires |a| == |b|
  {
    a != [] && (ValueLess(a[0], b[0]) || (a[0] == b[0] && TupleLess(a[1..], b[1..])))
  }

  function Fields<T>(r: Item<T>, columns: seq<Column>): (out: seq<Value>)
    ensures |out| == |columns|
  {
    if columns == [] then [] else [Field(r, columns[0])] + Fields(r, columns[1..])
  }

  /** (columns) < bound, or (columns) > bound. */
  datatype Condition = Condition(columns: seq<Column>, less: bool, bound: seq<Value>) {
    predicate Holds<T>(r: Item<T>)
      requires |columns| == |bound|
    {
      if less then TupleLess(Fields(r, columns), bound) else TupleLess(bound, Fields(r, columns))
    }
  }

  // ----- the two switches --------------------------------------------------------------------

  function OrderClause(o: OrderBy): seq<Term> {
    match o
    case CreatedAtAsc => [Term(CreatedAt, false), Term(Id, false)]
    case IdDesc => [Term(Id, true)]
    case IdAsc => [Term(Id, false)]
    case NameDesc => [Term(Name, true), Term(Id, true)]
    case NameAsc => [Term(Name, false), Term(Id, false)]
    case _ => [Term(CreatedAt, true), Term(Id, true)]
  }

  function KeysetClause(o: OrderBy, c: Cursor): (k: Condition)
    ensures |k.columns| == |k.bound|
  {
    match o
    case CreatedAtAsc => Condition([CreatedAt, Id], false, [Num(c.createdAt), Text(c.id)])
    case IdDesc => Condition([Id], true, [Text(c.id)])
    case IdAsc => Condition([Id], false, [Text(c.id)])
    case NameDesc => Condition([Name, Id], true, [Text(c.name), Text(c.id)])
    case NameAsc => Condition([Name, Id], false, [Text(c.name), Text(c.id)])
    case _ => Condition([CreatedAt, Id], true, [Num(c.createdAt), Text(c.id)])
  }

  function CursorAt<T>(r: Item<T>): Cursor { Cursor(r.createdAt, r.id, r.name) }

  predicate Precedes(desc: bool, a: Value, b: Value) { if desc then ValueLess(b, a) else ValueLess(a, b) }

  lemma OneTerm<T>(t: Term, r: Item<T>, s: Item<T>)
    ensures Before([t], r, s) <==> Precedes(t.desc, Field(r, t.column), Field(s, t.column))
  {
    assert [t][1..] == [];
  }

  lemma TwoTerms<T>(t: Term, u: Term, r: Item<T>, s: Item<T>)
    ensures Before([t, u], r, s) <==>
      || Precedes(t.desc, Field(r, t.column), Field(s, t.column))
      || (Field(r, t.column) == Field(s, t.column) && Precedes(u.desc, Field(r, u.column), Field(s, u.column)))
  {
    assert [t, u][1..] == [u];
    OneTerm(u, r, s);
  }

  lemma Singles(a: Value, b: Value)
    ensures TupleLess([a], [b]) <==> ValueLess(a, b)
  {
    assert [a][1..] == [] == [b][1..];
  }

  lemma Pairs(a: Value, b: Value, c: Value, d: Value)
    ensures TupleLess([a, b], [c, d]) <==> ValueLess(a, c) || (a == c && ValueLess(b, d))
  {
    assert [a, b][1..] == [b] && [c, d][1..] == [d];
    Singles(b, d);
  }

  lemma FieldsAre<T>(r: Item<T>, c: Column, d: Column)
    ensures Fields(r, [c]) == [Field(r, c)] && Fields(r, [c, d]) == [Field(r, c), Field(r, d)]
  {
    assert [c][1..] == [] && [d][1..] == [] && [c, d][1..] == [d];
    assert Fields(r, [d]) == [Field(r, d)];
  }

  /** For each of the seven orders the cursor predicate selects exactly the rows strictly after the
      cursor's row. */
  lemma KeysetIsAfter<T>(o: OrderBy, last: Item<T>, r: Item<T>)
    ensures KeysetClause(o, CursorAt(last)).Holds(r) <==> Before(OrderClause(o), last, r)
  {
    var terms := OrderClause(o);
    var c := terms[0].column;
    FieldsAre(r, c, Id);
    if |terms| == 1 {
      OneTerm(terms[0], last, r);
      Singles(Text(r.id), Text(last.id));
      Singles(Text(last.id), Text(r.id));
    } else {
      TwoTerms(terms[0], terms[1], last, r);
      Pairs(Field(r, c), Text(r.id), Field(last, c), Text(last.id));
      Pairs(Field(last, c), Text(last.id), Field(r, c), Text(r.id));
    }
  }

  // ----- ORDER BY is a strict total order ----------------------------------------------------

  /** Before, spelled out. */
  lemma BeforeIs<T>(o: OrderBy, r: Item<T>, s: Item<T>)
    ensures var t := OrderClause(o)[0];
      Before(OrderClause(o), r, s) <==>
        || Precedes(t.desc, Field(r, t.column), Field(s, t.column))
        || (Field(r, t.column) == Field(s, t.column) && Precedes(t.desc, Text(r.id), Text(s.id)))
  {
    var terms := OrderClause(o);
    LessIrreflexive(r.id);
    if |terms| == 1 {
      OneTerm(terms[0], r, s);
    } else {
      TwoTerms(terms[0], terms[1], r, s);
    }
  }

  lemma ValueOrder(a: Value, b: Value, c: Value)
    ensures !ValueLess(a, a)
    ensures ValueLess(a, b) && ValueLess(b, c) ==> ValueLess(a, c)
    ensures !(ValueLess(a, b) && ValueLess(b, a))
    ensures a.Num? == b.Num? ==> a == b || ValueLess(a, b) || ValueLess(b, a)
  {
    if a.Text? { LessIrreflexive(a.s); }
    if a.Text? && b.Text? { LessTotal(a.s, b.s); LessAsymmetric(a.s, b.s); }
    if a.Text? && b.Text? && c.Text? && Less(a.s, b.s) && Less(b.s, c.s) { LessTransitive(a.s, b.s, c.s); }
  }

  lemma BeforeIsOrder<T>(o: OrderBy, r: Item<T>, s: Item<T>, u: Item<T>)
    ensures !Before(OrderClause(o), r, r)
    ensures Before(OrderClause(o), r, s) && Before(OrderClause(o), s, u) ==> Before(OrderClause(o), r, u)
    ensures r.id != s.id ==> Before(OrderClause(o), r, s) || Before(OrderClause(o), s, r)
  {
    var c := OrderClause(o)[0].column;
    BeforeIs(o, r, r); BeforeIs(o, r, s); BeforeIs(o, s, r); BeforeIs(o, s, u); BeforeIs(o, r, u);
    ValueOrder(Field(r, c), Field(s, c), Field(u, c));
    ValueOrder(Field(u, c), Field(s, c), Field(r, c));
    ValueOrder(Text(r.id), Text(s.id), Text(u.id));
    ValueOrder(Text(u.id), Text(s.id), Text(r.id));
  }

  // ----- SELECT ------------------------------------------------------------------------------

  function Filter<T>(p: Item<T> -> bool, rows: seq<Item<T>>): seq<Item<T>> {
    if rows == [] then []
    else if p(rows[0]) then [rows[0]] + Filter(p, rows[1..])
    else Filter(p, rows[1..])
  }

  lemma FilterCons<T>(p: Item<T> -> bool, r: Item<T>, s: seq<Item<T>>)
    ensures Filter(p, [r] + s) == if p(r) then [r] + Filter(p, s) else Filter(p, s)
  {
    assert ([r] + s)[1..] == s;
  }

  function Insert<T>(o: OrderBy, r: Item<T>, s: seq<Item<T>>): seq<Item<T>> {
    if s == [] || Before(OrderClause(o), r, s[0]) then [r] + s else [s[0]] + Insert(o, r, s[1..])
  }

  function Sort<T>(o: OrderBy, rows: seq<Item<T>>): seq<Item<T>> {
    if rows == [] then [] else Insert(o, rows[0], Sort(o, rows[1..]))
  }

  /** The primary key. */
  ghost predicate DistinctIds<T>(rows: seq<Item<T>>) {
    forall i, j :: 0 <= i < j < |rows| ==> rows[i].id != rows[j].id
  }

  ghost predicate Sorted<T>(o: OrderBy, s: seq<Item<T>>) {
    forall i, j :: 0 <= i < j < |s| ==> Before(OrderClause(o), s[i], s[j])
  }

  function Conjunction<T>(where: Item<T> -> bool, o: OrderBy, after: Option<Cursor>): Item<T> -> bool {
    r => where(r) && (after.Some? ==> KeysetClause(o, after.value).Holds(r))
  }

  /** SELECT ... WHERE where [AND keyset] ORDER BY ... LIMIT limit. */
  function Select<T>(rows: seq<Item<T>>, where: Item<T> -> bool, o: OrderBy, after: Option<Cursor>, limit: nat)
    : seq<Item<T>>
  {
    var all := Sort(o, Filter(Conjunction(where, o, after), rows));
    all[..Min(limit, |all|)]
  }

  // ----- the lists ---------------------------------------------------------------------------

  /** Conditions of a WHERE clause, AND-joined. */
  predicate AllHold<C, T>(holds: (C, Item<T>) -> bool, where: seq<C>, r: Item<T>) {
    forall i :: 0 <= i < |where| ==> holds(where[i], r)
  }

  lemma AllHoldAppend<C, T(!new)>(holds: (C, Item<T>) -> bool, where: seq<C>, c: C)
    ensures forall r :: AllHold(holds, where + [c], r) <==> AllHold(holds, where, r) && holds(c, r)
  {
    forall r ensures AllHold(holds, where + [c], r) <==> AllHold(holds, where, r) && holds(c, r) {
      var all := where + [c];
      assert all[|where|] == c && forall i :: 0 <= i < |where| ==> all[i] == where[i];
      if AllHold(holds, all, r) {
        forall i | 0 <= i < |where| ensures holds(where[i], r) { assert holds(all[i], r); }
      }
    }
  }

  /** What the database returns for an assembled statement. */
  function Query<C, T>(holds: (C, Item<T>) -> bool, rows: seq<Item<T>>, where: seq<C>, o: OrderBy,
                       limit: nat): seq<Item<T>> {
    var all := Sort(o, Filter(r => AllHold(holds, where, r), rows));
    all[..Min(limit, |all|)]
  }

  datatype Page<+T> = Page(items: seq<Item<T>>, next: Option<Cursor>)

  /** One call: a probe row beyond the page says whether there is more. */
  function PageOf<T>(rows: seq<Item<T>>, where: Item<T> -> bool, o: OrderBy, after: Option<Cursor>,
                     pageSize: nat): Page<T>
    requires pageSize > 0
  {
    var got := Select(rows, where, o, after, pageSize + 1);
    if |got| > pageSize then Page(got[..pageSize], Some(CursorAt(got[pageSize-1]))) else Page(got, None)
  }

  /** The loop that scans the result rows, and the trimming of the probe row. */
  method ScanPage<T>(result: seq<Item<T>>, pageSize: nat) returns (page: Page<T>)
    requires pageSize > 0
    ensures page == if |result| > pageSize then Page(result[..pageSize], Some(CursorAt(result[pageSize-1])))
                    else Page(result, None)
  {
    var out := [];
    for i := 0 to |result|
      invariant out == result[..i]
    {
      out := out + [result[i]];
    }
    assert out == result;
    if |out| > pageSize {
      out := out[..pageSize];
      var last := out[|out|-1];
      return Page(out, Some(CursorAt(last)));
    }
    return Page(out, None);
  }

  // ----- sorting -----------------------------------------------------------------------------

  lemma {:induction false} InsertContents<T>(o: OrderBy, r: Item<T>, s: seq<Item<T>>)
    ensures multiset(Insert(o, r, s)) == multiset(s) + multiset{r}
  {
    if s == [] || Before(OrderClause(o), r, s[0]) {
    } else {
      InsertContents(o, r, s[1..]);
      assert s == [s[0]] + s[1..];
    }
  }

  /** Sorting keeps every row, each as often as it was there. */
  lemma {:induction false} SortContents<T>(o: OrderBy, rows: seq<Item<T>>)
    ensures multiset(Sort(o, rows)) == multiset(rows)
  {
    if rows != [] {
      SortContents(o, rows[1..]);
      InsertContents(o, rows[0], Sort(o, rows[1..]));
      assert rows == [rows[0]] + rows[1..];
    }
  }

  lemma {:induction false} InsertSorted<T>(o: OrderBy, r: Item<T>, s: seq<Item<T>>)
    requires Sorted(o, s) && forall i :: 0 <= i < |s| ==> s[i].id != r.id
    ensures Sorted(o, Insert(o, r, s))
  {
    if s == [] {
    } else if Before(OrderClause(o), r, s[0]) {
      forall i | 0 < i < |s| ensures Before(OrderClause(o), r, s[i]) {
        BeforeIsOrder(o, r, s[0], s[i]);
      }
    } else {
      BeforeIsOrder(o, r, s[0], s[0]);
      var tail := Insert(o, r, s[1..]);
      InsertSorted(o, r, s[1..]);
      InsertContents(o, r, s[1..]);
      forall j | 0 <= j < |tail| ensures Before(OrderClause(o), s[0], tail[j]) {
        assert tail[j] in multiset(tail);
      }
    }
  }

  lemma {:induction false} SortSorted<T>(o: OrderBy, rows: seq<Item<T>>)
    requires DistinctIds(rows)
    ensures Sorted(o, Sort(o, rows))
  {
    if rows != [] {
      SortSorted(o, rows[1..]);
      var s := Sort(o, rows[1..]);
      SortContents(o, rows[1..]);
      forall i | 0 <= i < |s| ensures s[i].id != rows[0].id {
        assert s[i] in multiset(s);
      }
      InsertSorted(o, rows[0], s);
    }
  }

  // ----- selecting after sorting -------------------------------------------------------------

  lemma {:induction false} FilterInsert<T>(o: OrderBy, p: Item<T> -> bool, r: Item<T>, s: seq<Item<T>>)
    requires Sorted(o, s)
    ensures Filter(p, Insert(o, r, s)) == if p(r) then Insert(o, r, Filter(p, s)) else Filter(p, s)
  {
    FilterCons(p, r, s);
    if s == [] || Before(OrderClause(o), r, s[0]) {
      if p(r) { FilterAfter(o, p, r, s); }
    } else {
      FilterInsert(o, p, r, s[1..]);
      FilterCons(p, s[0], Insert(o, r, s[1..]));
      FilterCons(p, s[0], s[1..]);
      assert s == [s[0]] + s[1..];
      if p(s[0]) { InsertLater(o, r, s[0], Filter(p, s[1..])); }
    }
  }

  lemma InsertLater<T>(o: OrderBy, r: Item<T>, first: Item<T>, rest: seq<Item<T>>)
    requires !Before(OrderClause(o), r, first)
    ensures Insert(o, r, [first] + rest) == [first] + Insert(o, r, rest)
  {
    assert ([first] + rest)[1..] == rest;
  }

  /** A row before a whole sorted sequence stays in front when the sequence is filtered. */
  lemma {:induction false} FilterAfter<T>(o: OrderBy, p: Item<T> -> bool, r: Item<T>, s: seq<Item<T>>)
    requires Sorted(o, s) && (s != [] ==> Before(OrderClause(o), r, s[0]))
    ensures Insert(o, r, Filter(p, s)) == [r] + Filter(p, s)
  {
    if s != [] && !p(s[0]) {
      if |s| > 1 { BeforeIsOrder(o, r, s[0], s[1]); }
      FilterAfter(o, p, r, s[1..]);
    }
  }

  lemma {:induction false} SortFilter<T>(o: OrderBy, p: Item<T> -> bool, rows: seq<Item<T>>)
    requires DistinctIds(rows)
    ensures Sort(o, Filter(p, rows)) == Filter(p, Sort(o, rows))
  {
    if rows != [] {
      SortFilter(o, p, rows[1..]);
      SortSorted(o, rows[1..]);
      FilterInsert(o, p, rows[0], Sort(o, rows[1..]));
      SortCons(o, rows[0], Filter(p, rows[1..]));
    }
  }

  lemma SortCons<T>(o: OrderBy, r: Item<T>, rows: seq<Item<T>>)
    ensures Sort(o, [r] + rows) == Insert(o, r, Sort(o, rows))
  {
    assert ([r] + rows)[1..] == rows;
  }

  lemma {:induction false} FilterTwice<T>(p: Item<T> -> bool, q: Item<T> -> bool, both: Item<T> -> bool,
                                          rows: seq<Item<T>>)
    requires forall r :: both(r) == (p(r) && q(r))
    ensures Filter(both, rows) == Filter(q, Filter(p, rows))
  {
    if rows != [] {
      FilterTwice(p, q, both, rows[1..]);
      FilterCons(q, rows[0], Filter(p, rows[1..]));
    }
  }

  /** A predicate that fails on the first k rows and holds on the others selects the suffix. */
  lemma {:induction false} FilterSuffix<T>(p: Item<T> -> bool, s: seq<Item<T>>, k: nat)
    requires k <= |s|
    requires forall i :: 0 <= i < |s| ==> (p(s[i]) <==> k <= i)
    ensures Filter(p, s) == s[k..]
  {
    if s != [] {
      FilterSuffix(p, s[1..], if k == 0 then 0 else k - 1);
      if k == 0 {
        assert s == [s[0]] + s[1..];
      } else {
        assert s[1..][k-1..] == s[k..];
      }
    }
  }

  lemma {:induction false} FilterIn<T>(p: Item<T> -> bool, rows: seq<Item<T>>, r: Item<T>)
    ensures r in Filter(p, rows) <==> r in rows && p(r)
  {
    if rows != [] {
      FilterIn(p, rows[1..], r);
      assert rows == [rows[0]] + rows[1..];
    }
  }

  lemma {:induction false} FilterIds<T>(p: Item<T> -> bool, rows: seq<Item<T>>)
    requires DistinctIds(rows)
    ensures DistinctIds(Filter(p, rows))
  {
    if rows != [] {
      FilterIds(p, rows[1..]);
      var rest := Filter(p, rows[1..]);
      forall i | 0 <= i < |rest| ensures rest[i].id != rows[0].id {
        FilterIn(p, rows[1..], rest[i]);
        var j :| 0 <= j < |rows[1..]| && rows[1..][j] == rest[i];
        assert rows[j+1] == rest[i];
      }
    }
  }

  /** What the whole list is: the filtered rows in order. */
  function Listing<T>(rows: seq<Item<T>>, where: Item<T> -> bool, o: OrderBy): seq<Item<T>> {
    Sort(o, Filter(where, rows))
  }

  /** With the cursor on row k-1 of the listing a query finds exactly the rest of the listing. */
  lemma SelectFromCursor<T>(rows: seq<Item<T>>, where: Item<T> -> bool, o: OrderBy, k: nat, limit: nat)
    requires DistinctIds(rows) && 0 < k <= |Listing(rows, where, o)|
    ensures var s := Listing(rows, where, o);
      Select(rows, where, o, Some(CursorAt(s[k-1])), limit) == s[k..][..Min(limit, |s| - k)]
  {
    var s := Listing(rows, where, o);
    var after := Some(CursorAt(s[k-1]));
    var q := (r: Item<T>) => KeysetClause(o, after.value).Holds(r);
    FilterIds(where, rows);
    SortSorted(o, Filter(where, rows));
    FilterTwice(where, q, Conjunction(where, o, after), rows);
    SortFilter(o, q, Filter(where, rows));
    forall i | 0 <= i < |s| ensures q(s[i]) <==> k <= i {
      KeysetIsAfter(o, s[k-1], s[i]);
      BeforeIsOrder(o, s[k-1], s[i], s[k-1]);
    }
    FilterSuffix(q, s, k);
  }

  lemma SelectFromStart<T>(rows: seq<Item<T>>, where: Item<T> -> bool, o: OrderBy, limit: nat)
    ensures var s := Listing(rows, where, o);
      Select(rows, where, o, None, limit) == s[..Min(limit, |s|)]
  {
    FilterSame(Conjunction(where, o, None), where, rows);
  }

  lemma {:induction false} FilterSame<T>(p: Item<T> -> bool, q: Item<T> -> bool, rows: seq<Item<T>>)
    requires forall r :: p(r) == q(r)
    ensures Filter(p, rows) == Filter(q, rows)
  {
    if rows != [] { FilterSame(p, q, rows[1..]); }
  }

  // ----- following cursors -------------------------------------------------------------------

  /** The cursor after the first k rows of the listing. */
  ghost predicate PointsAt<T>(s: seq<Item<T>>, k: nat, after: Option<Cursor>) {
    k <= |s| && after == if k == 0 then None else Some(CursorAt(s[k-1]))
  }

  lemma SliceOfSlice<T>(s: seq<T>, k: nat, m: nat, n: nat)
    requires n <= m && k + m <= |s|
    ensures s[k..][..m][..n] == s[k..k+n]
  {
  }

  /** A page that starts at row k of the listing, and where the next one starts. */
  lemma PageIsSlice<T>(rows: seq<Item<T>>, where: Item<T> -> bool, o: OrderBy, k: nat, after: Option<Cursor>,
                       pageSize: nat)
    requires DistinctIds(rows) && pageSize > 0 && PointsAt(Listing(rows, where, o), k, after)
    ensures var s := Listing(rows, where, o); var page := PageOf(rows, where, o, after, pageSize);
      && (page.next.Some? <==> k + pageSize < |s|)
      && page.items == s[k..Min(k + pageSize, |s|)]
      && (page.next.Some? ==> PointsAt(s, k + pageSize, page.next))
  {
    var s := Listing(rows, where, o);
    if k == 0 {
      SelectFromStart(rows, where, o, pageSize + 1);
    } else {
      SelectFromCursor(rows, where, o, k, pageSize + 1);
    }
    var got := Select(rows, where, o, after, pageSize + 1);
    assert got == s[k..][..Min(pageSize + 1, |s| - k)];
    if |got| > pageSize {
      SliceOfSlice(s, k, pageSize + 1, pageSize);
    } else {
      assert got == s[k..];
    }
  }

  /** Page n of a walk: it asks for sizes[n] rows after the cursor page n-1 returned. */
  predicate IsPage<T(==)>(rows: seq<Item<T>>, where: Item<T> -> bool, o: OrderBy, pages: seq<Page<T>>,
                          sizes: seq<nat>, n: nat)
    requires n < |pages| == |sizes|
  {
    && sizes[n] > 0
    && pages[n] == PageOf(rows, where, o, if n == 0 then None else pages[n-1].next, sizes[n])
    && (n + 1 < |pages| ==> pages[n].next.Some?)
  }

  /** A client that starts without a cursor and follows the ones it gets. */
  predicate IsWalk<T(==)>(rows: seq<Item<T>>, where: Item<T> -> bool, o: OrderBy, pages: seq<Page<T>>,
                          sizes: seq<nat>) {
    |pages| == |sizes| > 0 && forall n :: 0 <= n < |pages| ==> IsPage(rows, where, o, pages, sizes, n)
  }

  function Concat<T>(pages: seq<Page<T>>): seq<Item<T>> {
    if pages == [] then [] else Concat(pages[..|pages|-1]) + pages[|pages|-1].items
  }

  /** More than n rows of the listing have been returned, up to the cursor; or, without a cursor, all. */
  ghost predicate Reached<T>(s: seq<Item<T>>, n: nat, got: seq<Item<T>>, next: Option<Cursor>) {
    if next.Some? then n < |got| < |s| && got == s[..|got|] && PointsAt(s, |got|, next) else got == s
  }

  /** A page read at the end of a prefix of the listing extends it. */
  lemma PageExtends<T>(rows: seq<Item<T>>, where: Item<T> -> bool, o: OrderBy, n: nat, before: seq<Item<T>>,
                       after: Option<Cursor>, pageSize: nat)
    requires DistinctIds(rows) && pageSize > 0 && PointsAt(Listing(rows, where, o), |before|, after)
    requires n <= |before| && before == Listing(rows, where, o)[..|before|]
    ensures var page := PageOf(rows, where, o, after, pageSize);
      Reached(Listing(rows, where, o), n, before + page.items, page.next)
  {
    var s := Listing(rows, where, o);
    PageIsSlice(rows, where, o, |before|, after, pageSize);
    JoinSlices(s, |before|, Min(|before| + pageSize, |s|));
  }

  lemma ConcatLast<T>(pages: seq<Page<T>>, n: nat)
    requires n < |pages|
    ensures Concat(pages[..n+1]) == Concat(pages[..n]) + pages[n].items
  {
    assert pages[..n+1][..n] == pages[..n];
  }

  /** The pages so far are a prefix of the listing; the newest cursor, if any, marks its end. */
  lemma {:induction false} WalkSoFar<T>(rows: seq<Item<T>>, where: Item<T> -> bool, o: OrderBy, pages: seq<Page<T>>,
                                        sizes: seq<nat>, n: nat)
    requires DistinctIds(rows) && IsWalk(rows, where, o, pages, sizes) && n < |pages|
    ensures Reached(Listing(rows, where, o), n, Concat(pages[..n+1]), pages[n].next)
  {
    assert IsPage(rows, where, o, pages, sizes, n);
    ConcatLast(pages, n);
    if n > 0 {
      WalkSoFar(rows, where, o, pages, sizes, n - 1);
      assert IsPage(rows, where, o, pages, sizes, n - 1);
      PageExtends(rows, where, o, n, Concat(pages[..n]), pages[n-1].next, sizes[n]);
    } else {
      PageExtends(rows, where, o, 0, [], None, sizes[0]);
    }
  }

  lemma JoinSlices<T>(s: seq<T>, k: nat, m: nat)
    requires k <= m <= |s|
    ensures s[..k] + s[k..m] == s[..m]
  {
  }

  /** Following the cursors over an unchanged table, with any page sizes: a walk that ends has
      returned the filtered rows in order, each exactly once, and no walk is longer than the
      listing. */
  lemma PagesConcatenate<T>(rows: seq<Item<T>>, where: Item<T> -> bool, o: OrderBy, pages: seq<Page<T>>,
                            sizes: seq<nat>)
    requires DistinctIds(rows) && IsWalk(rows, where, o, pages, sizes)
    ensures pages[|pages|-1].next.None? ==>
      var all := Concat(pages);
      Sorted(o, all) && DistinctIds(all) && multiset(all) == multiset(Filter(where, rows))
    ensures pages[|pages|-1].next.Some? ==> |pages| < |Filter(where, rows)|
  {
    WalkSoFar(rows, where, o, pages, sizes, |pages| - 1);
    assert pages[..|pages|] == pages;
    FilterIds(where, rows);
    SortSorted(o, Filter(where, rows));
    SortContents(o, Filter(where, rows));
    SortKeepsDistinct(o, Filter(where, rows));
    assert |Listing(rows, where, o)| == |multiset(Listing(rows, where, o))|;
  }

  /** A walk to the end returns exactly the rows that `where` selects. */
  lemma WalkReturnsSelection<T(!new)>(rows: seq<Item<T>>, where: Item<T> -> bool, o: OrderBy, pages: seq<Page<T>>,
                                      sizes: seq<nat>, r: Item<T>)
    requires DistinctIds(rows) && IsWalk(rows, where, o, pages, sizes) && pages[|pages|-1].next.None?
    ensures Sorted(o, Concat(pages)) && DistinctIds(Concat(pages))
    ensures r in Concat(pages) <==> r in rows && where(r)
  {
    PagesConcatenate(rows, where, o, pages, sizes);
    FilterIn(where, rows, r);
    assert r in Concat(pages) <==> r in multiset(Concat(pages));
    assert r in Filter(where, rows) <==> r in multiset(Filter(where, rows));
  }

  predicate Avoids<T>(s: seq<Item<T>>, r: Item<T>) { forall i :: 0 <= i < |s| ==> s[i].id != r.id }

  lemma ConsDistinct<T>(r: Item<T>, s: seq<Item<T>>)
    requires DistinctIds(s) && Avoids(s, r)
    ensures DistinctIds([r] + s)
  {
  }

  lemma {:induction false} InsertAvoids<T>(o: OrderBy, r: Item<T>, s: seq<Item<T>>, x: Item<T>)
    requires Avoids(s, x) && r.id != x.id
    ensures Avoids(Insert(o, r, s), x)
  {
    InsertContents(o, r, s);
    var t := Insert(o, r, s);
    forall i | 0 <= i < |t| ensures t[i].id != x.id {
      assert t[i] in multiset(t);
    }
  }

  lemma {:induction false} InsertDistinct<T>(o: OrderBy, r: Item<T>, s: seq<Item<T>>)
    requires DistinctIds(s) && Avoids(s, r)
    ensures DistinctIds(Insert(o, r, s))
  {
    if s == [] || Before(OrderClause(o), r, s[0]) {
      ConsDistinct(r, s);
    } else {
      assert Avoids(s[1..], r) && Avoids(s[1..], s[0]);
      InsertDistinct(o, r, s[1..]);
      InsertAvoids(o, r, s[1..], s[0]);
      ConsDistinct(s[0], Insert(o, r, s[1..]));
    }
  }

  lemma {:induction false} SortKeepsDistinct<T>(o: OrderBy, rows: seq<Item<T>>)
    requires DistinctIds(rows)
    ensures DistinctIds(Sort(o, rows))
  {
    if rows != [] {
      SortKeepsDistinct(o, rows[1..]);
      var s := Sort(o, rows[1..]);
      SortContents(o, rows[1..]);
      forall i | 0 <= i < |s| ensures s[i].id != rows[0].id {
        assert s[i] in multiset(s);
      }
      InsertDistinct(o, rows[0], s);
    }
  }
}

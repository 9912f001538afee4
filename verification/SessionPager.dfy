/**
 ListSessions: an in-memory keyset pager over a set of sessions that changes between the calls.

 A page token is absent, malformed, or the encoding of a cursor; the encoding itself (base64 over
 JSON) is not part of this model.
 */
module SessionPager {
  import opened Ordering
  import opened Prelude
  import opened SessionDomain
  import opened SessionStore
  import P = SessionProtocol
  import Invariant = SessionInvariant
  import Theorems = SessionTheorems

  /** sessionsPageToken: the place of the last row a page returned. */
  datatype Cursor = Cursor(issuedAt: Time, sessionId: string)

  const DEFAULT_PAGE_SIZE := 50
  const MAX_PAGE_SIZE := 100

  function CursorAt(s: Session): Cursor { Cursor(s.issuedAt, s.id.text) }

  /** `s` sits strictly past the cursor. */
  predicate CursorBefore(s: Session, c: Cursor) {
    s.issuedAt < c.issuedAt || (s.issuedAt == c.issuedAt && Less(s.id.text, c.sessionId))
  }

  predicate Past(s: Session, after: Option<Cursor>) { after.Some? ==> CursorBefore(s, after.value) }

  // ----- one page ----------------------------------------------------------------------------

  /** The rows from k on are the ones past the cursor. */
  ghost predicate IsCut(active: seq<Session>, after: Option<Cursor>, k: nat) {
    && k <= |active|
    && (forall i :: 0 <= i < k ==> !Past(active[i], after))
    && (forall i :: k <= i < |active| ==> Past(active[i], after))
  }

  ghost predicate CutsPage(active: seq<Session>, after: Option<Cursor>, size: nat,
                           page: seq<Session>, next: Option<Cursor>, k: nat)
    requires size > 0
  {
    && IsCut(active, after, k)
    && page == active[k..Min(k + size, |active|)]
    && next == if k + size < |active| then Some(CursorAt(active[k + size - 1])) else None
  }

  lemma PastIsClosed(a: Session, b: Session, after: Option<Cursor>)
    requires Past(a, after) && Newer(a, b)
    ensures Past(b, after)
  {
    if after.Some? && a.issuedAt == b.issuedAt && a.issuedAt == after.value.issuedAt {
      LessTransitive(b.id.text, a.id.text, after.value.sessionId);
    }
  }

  method SelectSessionsPage(active: seq<Session>, after: Option<Cursor>, pageSize: nat)
    returns (page: seq<Session>, next: Option<Cursor>)
    requires NewestFirst(active) && pageSize > 0
    ensures exists k :: CutsPage(active, after, pageSize, page, next, k)
  {
    var start := |active|;
    if after.None? {
      start := 0;
    } else {
      var i := 0;
      while i < |active|
        invariant 0 <= i <= |active|
        invariant start == |active|
        invariant forall j :: 0 <= j < i ==> !CursorBefore(active[j], after.value)
      {
        if CursorBefore(active[i], after.value) {
          start := i;
          break;
        }
        i := i + 1;
      }
    }
    forall j | start <= j < |active| ensures Past(active[j], after) {
      if j > start { PastIsClosed(active[start], active[j], after); }
    }
    assert IsCut(active, after, start);
    var remaining := active[start..];
    var hasMore := |remaining| > pageSize;
    if hasMore {
      remaining := remaining[..pageSize];
      next := Some(CursorAt(remaining[|remaining|-1]));
    } else {
      next := None;
    }
    page := remaining;
    assert CutsPage(active, after, pageSize, page, next, start);
  }

  /** A row of the user that a call at `now` with this cursor may return. */
  predicate Eligible(t: Table, user: UserId, now: Time, after: Option<Cursor>, id: SessionId) {
    id in t && t[id].userId == user && t[id].IsActive(now) && Past(t[id], after)
  }

  /** The page holds the newest `size` eligible rows in order, and `next` is set exactly when that
      is not all of them. */
  ghost predicate IsPage(t: Table, user: UserId, now: Time, after: Option<Cursor>, size: nat,
                         page: seq<Session>, next: Option<Cursor>)
  {
    && |page| <= size
    && NewestFirst(page)
    && (forall i :: 0 <= i < |page| ==> Eligible(t, user, now, after, page[i].id) && page[i] == t[page[i].id])
    && (next.None? ==> forall id :: Eligible(t, user, now, after, id) ==> t[id] in page)
    && (next.Some? ==>
          && 0 < |page| == size
          && next.value == CursorAt(page[size-1])
          && (exists id :: Eligible(t, user, now, after, id) && t[id] !in page)
          && forall id :: Eligible(t, user, now, after, id) ==> t[id] in page || Newer(page[size-1], t[id]))
  }

  function EffectiveSize(pageSize: nat): (size: nat)
    ensures 1 <= size <= MAX_PAGE_SIZE
  {
    if pageSize == 0 then DEFAULT_PAGE_SIZE else Min(pageSize, MAX_PAGE_SIZE)
  }

  datatype PageToken = NoToken | Malformed | Token(cursor: Cursor)

  /** decodeSessionsCursor; None is an error. */
  function DecodeCursor(token: PageToken): Option<Option<Cursor>> {
    match token
    case NoToken => Some(None)
    case Malformed => None
    case Token(c) => Some(Some(c))
  }

  datatype Result =
    | InvalidPageSize
    | InvalidPageToken
    | Listed(sessions: seq<Session>, next: Option<Cursor>, total: nat)

  method ListSessions(sessions: Repository, caller: UserId, pageSize: int, token: PageToken, now: Time)
    returns (r: Result)
    requires sessions.Valid()
    ensures r.InvalidPageSize? <==> pageSize < 0
    ensures r.InvalidPageToken? <==> pageSize >= 0 && token.Malformed?
    ensures r.Listed? ==>
      && var after := if token.Token? then Some(token.cursor) else None;
      && IsPage(sessions.rows, caller, now, after, EffectiveSize(pageSize), r.sessions, r.next)
      && r.total == |set id | id in sessions.rows && Eligible(sessions.rows, caller, now, None, id)|
  {
    var size := pageSize;
    if size < 0 {
      return InvalidPageSize;
    } else if size == 0 {
      size := DEFAULT_PAGE_SIZE;
    } else if size > MAX_PAGE_SIZE {
      size := MAX_PAGE_SIZE;
    }
    var decoded := DecodeCursor(token);
    if decoded.None? { return InvalidPageToken; }
    var after := decoded.value;
    var all := sessions.ListByUser(caller);
    var active := KeepActive(all, now);
    KeptIsEligible(sessions.rows, caller, now, all, active);
    var page, next := SelectSessionsPage(active, after, size);
    CutIsPage(sessions.rows, caller, now, after, size, active, page, next);
    return Listed(page, next, |active|);
  }

  /** The loop that drops revoked and expired sessions. */
  method KeepActive(all: seq<Session>, now: Time) returns (active: seq<Session>)
    requires NewestFirst(all) && forall i, j :: 0 <= i < j < |all| ==> all[i].id != all[j].id
    ensures NewestFirst(active)
    ensures forall s :: s in active <==> s in all && s.IsActive(now)
    ensures |active| == |set s | s in active :: s.id|
  {
    active := [];
    ghost var ids: set<SessionId> := {};
    for i := 0 to |all|
      invariant NewestFirst(active)
      invariant forall s :: s in active <==> s in all[..i] && s.IsActive(now)
      invariant ids == (set s | s in active :: s.id) && |ids| == |active|
    {
      assert all[..i+1] == all[..i] + [all[i]];
      if all[i].IsActive(now) {
        assert forall j :: 0 <= j < |active| ==> active[j] in all[..i];
        active := active + [all[i]];
        ids := ids + {all[i].id};
      }
    }
    assert all[..|all|] == all;
  }

  /** `active` is the user's eligible rows, newest first. */
  ghost predicate IsActiveList(t: Table, user: UserId, now: Time, active: seq<Session>) {
    && NewestFirst(active)
    && forall s :: s in active <==> s.id in t && s == t[s.id] && Eligible(t, user, now, None, s.id)
  }

  lemma KeptIsEligible(t: Table, user: UserId, now: Time, all: seq<Session>, active: seq<Session>)
    requires IsListing(t, user, all) && NewestFirst(active) && forall id :: id in t ==> t[id].id == id
    requires forall s :: s in active <==> s in all && s.IsActive(now)
    ensures IsActiveList(t, user, now, active)
    ensures (set s | s in active :: s.id) == (set id | id in t && Eligible(t, user, now, None, id))
  {
    forall id | id in t && Eligible(t, user, now, None, id) ensures id in (set s | s in active :: s.id) {
      assert t[id] in active;
    }
  }

  lemma CutIsPage(t: Table, user: UserId, now: Time, after: Option<Cursor>, size: nat, active: seq<Session>,
                  page: seq<Session>, next: Option<Cursor>)
    requires IsActiveList(t, user, now, active) && size > 0 && forall id :: id in t ==> t[id].id == id
    requires exists k :: CutsPage(active, after, size, page, next, k)
    ensures IsPage(t, user, now, after, size, page, next)
  {
    var k: nat :| CutsPage(active, after, size, page, next, k);
    forall i | 0 <= i < |page| ensures Eligible(t, user, now, after, page[i].id) && page[i] == t[page[i].id] {
      assert page[i] == active[k+i] && active[k+i] in active;
    }
    forall id | Eligible(t, user, now, after, id)
      ensures t[id] in page || (next.Some? && Newer(page[size-1], t[id]))
    {
      assert t[id] in active;
      PastIsInPage(active, after, size, page, next, k, t[id]);
    }
    if next.Some? {
      MoreIsLeft(active, k, size, page);
      assert Eligible(t, user, now, after, active[k+size].id);
    }
  }

  /** A row past the cursor is on the page or comes after a full one. */
  lemma PastIsInPage(active: seq<Session>, after: Option<Cursor>, size: nat, page: seq<Session>,
                     next: Option<Cursor>, k: nat, s: Session)
    requires NewestFirst(active) && size > 0 && CutsPage(active, after, size, page, next, k)
    requires s in active && Past(s, after)
    ensures s in page || (next.Some? && Newer(page[size-1], s))
  {
    var i :| 0 <= i < |active| && active[i] == s;
    if i < k + size { assert page[i-k] == s; }
  }

  /** The row after a full page is older than all of the page. */
  lemma MoreIsLeft(active: seq<Session>, k: nat, size: nat, page: seq<Session>)
    requires NewestFirst(active) && 0 < size && k + size < |active| && page == active[k..k + size]
    ensures active[k+size] in active && active[k+size] !in page
  {
    var rest := active[k+size];
    forall i | 0 <= i < |page| ensures page[i] != rest {
      assert page[i] == active[k+i] && Newer(active[k+i], rest);
      NewerIsOrder(rest, rest, rest);
    }
  }

  // ----- following cursors while sessions come and go -----------------------------------------

  /** A call that saw state `at` of the run, and what it returned. */
  datatype Visit = Visit(at: nat, now: Time, pageSize: nat, page: seq<Session>, next: Option<Cursor>)

  function CursorFor(visits: seq<Visit>, k: nat): Option<Cursor>
    requires k <= |visits|
  {
    if k == 0 then None else visits[k-1].next
  }

  ghost predicate VisitAt(ws: seq<P.World>, user: UserId, visits: seq<Visit>, k: nat)
    requires k < |visits|
  {
    && visits[k].at < |ws|
    && IsPage(ws[visits[k].at].rows, user, visits[k].now, CursorFor(visits, k),
              EffectiveSize(visits[k].pageSize), visits[k].page, visits[k].next)
    && (k + 1 < |visits| ==> visits[k].next.Some?)
  }

  /** A client that follows the cursors while any other calls run; page sizes may vary. */
  ghost predicate IsWalk(ws: seq<P.World>, user: UserId, visits: seq<Visit>) {
    forall k :: 0 <= k < |visits| ==> VisitAt(ws, user, visits, k)
  }

  predicate Ahead(c: Cursor, d: Cursor) {
    d.issuedAt < c.issuedAt || (c.issuedAt == d.issuedAt && Less(d.sessionId, c.sessionId))
  }

  lemma AheadIsOrder(c: Cursor, d: Cursor, e: Cursor)
    ensures !Ahead(c, c)
    ensures Ahead(c, d) && Ahead(d, e) ==> Ahead(c, e)
    ensures c == d || Ahead(c, d) || Ahead(d, c)
  {
    LessIrreflexive(c.sessionId);
    LessTotal(c.sessionId, d.sessionId);
    if Ahead(c, d) && Ahead(d, e) && c.issuedAt == e.issuedAt {
      LessTransitive(e.sessionId, d.sessionId, c.sessionId);
    }
  }

  /** Each page but the last moves the cursor strictly towards older sessions. */
  lemma CursorAdvances(ws: seq<P.World>, user: UserId, visits: seq<Visit>, k: nat)
    requires IsWalk(ws, user, visits) && 0 < k < |visits| && visits[k].next.Some?
    ensures visits[k-1].next.Some? && Ahead(visits[k-1].next.value, visits[k].next.value)
  {
    assert VisitAt(ws, user, visits, k - 1) && VisitAt(ws, user, visits, k);
    var page := visits[k].page;
    assert Eligible(ws[visits[k].at].rows, user, visits[k].now, visits[k-1].next, page[|page|-1].id);
  }

  lemma {:induction false} CursorsDescend(ws: seq<P.World>, user: UserId, visits: seq<Visit>, j: nat, k: nat)
    requires IsWalk(ws, user, visits) && j < k < |visits| && visits[k].next.Some?
    ensures visits[j].next.Some? && Ahead(visits[j].next.value, visits[k].next.value)
  {
    CursorAdvances(ws, user, visits, k);
    if j < k - 1 {
      CursorsDescend(ws, user, visits, j, k - 1);
      AheadIsOrder(visits[j].next.value, visits[k-1].next.value, visits[k].next.value);
    }
  }

  /** Where a returned session stands between the cursor before its page and the one after it. */
  lemma BetweenCursors(ws: seq<P.World>, user: UserId, visits: seq<Visit>, k: nat, i: nat)
    requires IsWalk(ws, user, visits) && k < |visits| && i < |visits[k].page|
    ensures forall j :: 0 <= j < k ==>
      visits[j].next.Some? && Ahead(visits[j].next.value, CursorAt(visits[k].page[i]))
    ensures visits[k].next.Some? ==> !Ahead(visits[k].next.value, CursorAt(visits[k].page[i]))
  {
    var s := visits[k].page[i];
    assert VisitAt(ws, user, visits, k);
    assert Eligible(ws[visits[k].at].rows, user, visits[k].now, CursorFor(visits, k), s.id);
    forall j | 0 <= j < k ensures visits[j].next.Some? && Ahead(visits[j].next.value, CursorAt(s)) {
      assert VisitAt(ws, user, visits, k - 1);
      if j < k - 1 {
        CursorsDescend(ws, user, visits, j, k - 1);
        AheadIsOrder(visits[j].next.value, visits[k-1].next.value, CursorAt(s));
      }
    }
    if visits[k].next.Some? {
      var page := visits[k].page;
      var last := page[|page|-1];
      assert i == |page| - 1 || Newer(s, last);
      AheadIsOrder(CursorAt(s), CursorAt(last), CursorAt(s));
    }
  }

  /** A session keeps its place in the order in every state that has it. */
  lemma PlaceIsFixed(cfg: Config, ws: seq<P.World>, acts: seq<P.Action>, m: nat, n: nat, id: SessionId)
    requires cfg.Valid() && P.IsRun(cfg, ws, acts) && m < |ws| && n < |ws|
    requires id in ws[m].rows && id in ws[n].rows
    ensures CursorAt(ws[m].rows[id]) == CursorAt(ws[n].rows[id])
  {
    Theorems.IdentityIsFixed(cfg, ws, acts, Min(m, n), Max(m, n), id);
    Invariant.InvRun(cfg, ws, acts, m);
    Invariant.InvRun(cfg, ws, acts, n);
    assert P.RowOk(cfg, ws[m].hist, id, ws[m].rows[id]) && P.RowOk(cfg, ws[n].hist, id, ws[n].rows[id]);
  }

  /** However sessions are created, refreshed, revoked or expire between the calls, no session is
      returned twice. */
  lemma NoneReturnedTwice(cfg: Config, ws: seq<P.World>, acts: seq<P.Action>, user: UserId, visits: seq<Visit>,
                          k: nat, i: nat, l: nat, j: nat)
    requires cfg.Valid() && P.IsRun(cfg, ws, acts) && IsWalk(ws, user, visits)
    requires k < |visits| && i < |visits[k].page| && l < |visits| && j < |visits[l].page|
    requires visits[k].page[i].id == visits[l].page[j].id
    ensures k == l && i == j
  {
    var s, r := visits[k].page[i], visits[l].page[j];
    assert VisitAt(ws, user, visits, k) && VisitAt(ws, user, visits, l);
    var (tk, tl) := (ws[visits[k].at].rows, ws[visits[l].at].rows);
    assert Eligible(tk, user, visits[k].now, CursorFor(visits, k), s.id) && s == tk[s.id];
    assert Eligible(tl, user, visits[l].now, CursorFor(visits, l), r.id) && r == tl[r.id];
    PlaceIsFixed(cfg, ws, acts, visits[k].at, visits[l].at, s.id);
    BetweenCursors(ws, user, visits, k, i);
    BetweenCursors(ws, user, visits, l, j);
    if k == l && i != j {
      assert Newer(s, s);
      NewerIsOrder(s, s, s);
    }
  }

  /** The user's session is active at the visit. */
  ghost predicate ActiveAt(ws: seq<P.World>, user: UserId, v: Visit, id: SessionId)
    requires v.at < |ws|
  {
    Eligible(ws[v.at].rows, user, v.now, None, id)
  }

  /** The first page whose cursor reaches `place`, or the last page. */
  lemma {:induction false} ReachingPage(visits: seq<Visit>, place: Cursor, k: nat) returns (n: nat)
    requires k < |visits| && visits[|visits|-1].next.None?
    requires forall m :: 0 <= m < k ==> visits[m].next.Some? && Ahead(visits[m].next.value, place)
    ensures k <= n < |visits|
    ensures forall m :: 0 <= m < n ==> visits[m].next.Some? && Ahead(visits[m].next.value, place)
    ensures visits[n].next.None? || !Ahead(visits[n].next.value, place)
    decreases |visits| - k
  {
    if visits[k].next.None? || !Ahead(visits[k].next.value, place) { return k; }
    n := ReachingPage(visits, place, k + 1);
  }

  ghost predicate Returned(v: Visit, id: SessionId) { exists i :: 0 <= i < |v.page| && v.page[i].id == id }

  /** A session that is active at every call of a walk that ended was returned; by
      NoneReturnedTwice, exactly once. */
  lemma ActiveThroughoutIsReturned(cfg: Config, ws: seq<P.World>, acts: seq<P.Action>, user: UserId,
                                   visits: seq<Visit>, id: SessionId)
    requires cfg.Valid() && P.IsRun(cfg, ws, acts) && IsWalk(ws, user, visits)
    requires |visits| > 0 && visits[|visits|-1].next.None?
    requires forall n :: 0 <= n < |visits| ==> visits[n].at < |ws| && ActiveAt(ws, user, visits[n], id)
    ensures exists k :: 0 <= k < |visits| && Returned(visits[k], id)
  {
    assert ActiveAt(ws, user, visits[0], id);
    var place := CursorAt(ws[visits[0].at].rows[id]);
    var k := ReachingPage(visits, place, 0);
    assert VisitAt(ws, user, visits, k) && ActiveAt(ws, user, visits[k], id);
    var t := ws[visits[k].at].rows;
    PlaceIsFixed(cfg, ws, acts, visits[0].at, visits[k].at, id);
    assert Eligible(t, user, visits[k].now, CursorFor(visits, k), id);
    var page := visits[k].page;
    assert t[id] in page;
    Invariant.InvRun(cfg, ws, acts, visits[k].at);
    assert P.RowOk(cfg, ws[visits[k].at].hist, id, t[id]);
    assert Returned(visits[k], id);
  }
}

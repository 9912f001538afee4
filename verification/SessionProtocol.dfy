/**
 The calls that read and write sessions, each split into its repository calls.

 A call is a value that says which repository call comes next and carries what the use case keeps
 in memory in between: the loaded (and perhaps already mutated) copy of a session, the hash
 presented, the time read at the start. `Exec` performs that one repository call together with the
 in-memory work that follows it. Calls of any number run interleaved, one `Exec` at a time.
 */
module SessionProtocol {
  import opened Prelude
  import opened SessionDomain
  import opened SessionStore
  import UserDomain

  type Users = map<UserId, UserDomain.Status>

  datatype Outcome =
    | Issued(session: SessionId, hash: Hash, refreshExpiresAt: Time)
    | Done
    | InvalidToken
    | InvalidCredentials
    | PasswordMismatch
    | UserIsBlocked
    | UserIsDeleted
    | TokenReused
    | NotFound
    | NotOwned
    | Failed

  /** Attribution copied onto a new session. */
  datatype Device = Device(userAgent: string, ipAddress: string)

  datatype Call =
    // requests, before their first repository call
    | Refresh(hash: Hash, now: Time)
    | Logout(id: SessionId, now: Time)
    | RevokeSession(id: SessionId, caller: UserId, now: Time)
    | RevokeToken(hash: Hash, caller: UserId, now: Time)
    | RevokeAll(caller: UserId, now: Time)
    | RevokeOthers(caller: UserId, current: SessionId, now: Time)
    | Login(user: UserId, passwordMatches: bool, now: Time, device: Device)
    | ChangePassword(user: UserId, passwordMatches: bool, now: Time, device: Device)
    | ResetPassword(user: UserId, codeConsumed: bool, now: Time, device: Device)
    // suspended between two repository calls
    | RefreshUser(copy: Session, prev: Hash, now: Time)
    | RefreshRotate(copy: Session, prev: Hash, now: Time)
    | RefreshReplay(user: UserId, now: Time)
    | WriteBack(queue: seq<Session>, onDone: Outcome, onNoRow: Outcome)
    | StorePassword(user: UserId, now: Time, device: Device)
    | RevokeBeforeMint(user: UserId, now: Time, device: Device)
    | Mint(row: Session)
    // finished
    | Finished(outcome: Outcome)
  {
    predicate IsRequest() {
      || Refresh? || Logout? || RevokeSession? || RevokeToken? || RevokeAll? || RevokeOthers?
      || Login? || ChangePassword? || ResetPassword?
    }
  }

  /** What a step takes from outside: generated values, the outcome of the etag-locked password
      write, and the rows ListByUser returned. */
  datatype Choice = Choice(hash: Hash, id: SessionId, passwordStored: bool, listing: seq<Session>)

  /** The sessions RevokeAllSessions(except current) revokes in memory, in listing order. */
  function Others(listing: seq<Session>, current: SessionId, now: Time): (queue: seq<Session>)
    ensures |queue| <= |listing|
  {
    if listing == [] then []
    else if listing[0].IsRevoked() || listing[0].id == current then Others(listing[1..], current, now)
    else [listing[0].Revoke(now)] + Others(listing[1..], current, now)
  }

  /** One repository call of `call` and the in-memory work after it. */
  ghost function Exec(cfg: Config, t: Table, users: Users, call: Call, ch: Choice): (Table, Call) {
    match call
    case Refresh(hash, now) =>
      (match FindByHash(t, hash)
       case None => (t, Finished(InvalidToken))
       case Some(s) =>
         if s.IsRevoked() || s.IsAbsoluteExpired(now) || s.IsRefreshExpired(now)
         then (t, Finished(InvalidToken))
         else (t, RefreshUser(s, hash, now)))
    case RefreshUser(copy, prev, now) =>
      if copy.userId !in users || users[copy.userId].Deleted?
      then (t, WriteBack([copy.Revoke(now)], InvalidToken, InvalidToken))
      else if users[copy.userId].Blocked?
      then (t, WriteBack([copy.Revoke(now)], UserIsBlocked, UserIsBlocked))
      else (t, RefreshRotate(copy.Rotate(ch.hash, now, cfg.SlideWindow(copy, now)), prev, now))
    case RefreshRotate(copy, prev, now) =>
      var (t', r) := RotateRow(t, copy, prev);
      (match r
       case Written => (t', Finished(Issued(copy.id, copy.hash, copy.refreshExpiresAt)))
       case NoRow => (t', RefreshReplay(copy.userId, now))
       case Rejected => (t', Finished(Failed)))
    case RefreshReplay(user, now) => (RevokeAllRows(t, user, now), Finished(TokenReused))
    case Logout(id, now) =>
      if id !in t || t[id].IsRevoked() then (t, Finished(Done))
      else (t, WriteBack([t[id].Revoke(now)], Done, Failed))
    case RevokeSession(id, caller, now) =>
      if id !in t then (t, Finished(NotFound))
      else if t[id].userId != caller then (t, Finished(NotOwned))
      else if t[id].IsRevoked() then (t, Finished(Done))
      else (t, WriteBack([t[id].Revoke(now)], Done, Failed))
    case RevokeToken(hash, caller, now) =>
      (match FindByHash(t, hash)
       case None => (t, Finished(Done))
       case Some(s) =>
         if s.userId != caller then (t, Finished(NotOwned))
         else if s.IsRevoked() then (t, Finished(Done))
         else (t, WriteBack([s.Revoke(now)], Done, Failed)))
    case RevokeAll(caller, now) => (RevokeAllRows(t, caller, now), Finished(Done))
    case RevokeOthers(caller, current, now) =>
      var queue := Others(ch.listing, current, now);
      (t, if queue == [] then Finished(Done) else WriteBack(queue, Done, Failed))
    case WriteBack(queue, onDone, onNoRow) =>
      if queue == [] then (t, Finished(onDone))
      else
        var (t', r) := UpdateRow(t, queue[0]);
        if r.Written? then
          (t', if |queue| == 1 then Finished(onDone) else WriteBack(queue[1..], onDone, onNoRow))
        else (t', Finished(onNoRow))
    case Login(user, passwordMatches, now, device) =>
      if user !in users || users[user].Deleted? then (t, Finished(InvalidCredentials))
      else if users[user].Blocked? then (t, Finished(UserIsBlocked))
      else if !passwordMatches then (t, Finished(InvalidCredentials))
      else (t, Mint(cfg.NewSession(ch.id, user, ch.hash, device.userAgent, device.ipAddress, now)))
    case ChangePassword(user, passwordMatches, now, device) =>
      if user !in users then (t, Finished(InvalidToken))
      else if users[user].Deleted? then (t, Finished(UserIsDeleted))
      else if users[user].Blocked? then (t, Finished(UserIsBlocked))
      else if !passwordMatches then (t, Finished(PasswordMismatch))
      else (t, StorePassword(user, now, device))
    case ResetPassword(user, codeConsumed, now, device) =>
      if user !in users then (t, Finished(NotFound))
      else if users[user].Deleted? then (t, Finished(UserIsDeleted))
      else if users[user].Blocked? then (t, Finished(UserIsBlocked))
      else if !codeConsumed then (t, Finished(InvalidCredentials))
      else (t, StorePassword(user, now, device))
    case StorePassword(user, now, device) =>
      if !ch.passwordStored then (t, Finished(Failed)) else (t, RevokeBeforeMint(user, now, device))
    case RevokeBeforeMint(user, now, device) =>
      (RevokeAllRows(t, user, now),
       Mint(cfg.NewSession(ch.id, user, ch.hash, device.userAgent, device.ipAddress, now)))
    case Mint(row) =>
      var (t', r) := InsertRow(t, row, row.userId in users);
      (t', Finished(if r.Written? then Issued(row.id, row.hash, row.refreshExpiresAt) else Failed))
    case Finished(_) => (t, call)
  }

  /** An upper bound on the repository calls left. */
  function Remaining(call: Call, ch: Choice): nat {
    match call
    case Refresh(_, _) => 4
    case RefreshUser(_, _, _) => 3
    case RefreshRotate(_, _, _) => 2
    case WriteBack(queue, _, _) => |queue| + 1
    case RevokeOthers(_, _, _) => |ch.listing| + 2
    case Logout(_, _) => 3
    case RevokeSession(_, _, _) => 3
    case RevokeToken(_, _, _) => 3
    case ChangePassword(_, _, _, _) => 4
    case ResetPassword(_, _, _, _) => 4
    case StorePassword(_, _, _) => 3
    case RevokeBeforeMint(_, _, _) => 2
    case Login(_, _, _, _) => 2
    case Finished(_) => 0
    case _ => 1
  }

  /** Every repository call brings a call closer to its end. */
  lemma StepsRunOut(cfg: Config, t: Table, users: Users, call: Call, ch: Choice)
    requires !call.Finished?
    ensures Remaining(Exec(cfg, t, users, call, ch).1, ch) < Remaining(call, ch)
  {
  }

  /** A call run to its end with no other call in between. */
  ghost function RunAlone(cfg: Config, t: Table, users: Users, call: Call, ch: Choice): (Table, Outcome)
    decreases Remaining(call, ch)
  {
    if call.Finished? then (t, call.outcome)
    else
      StepsRunOut(cfg, t, users, call, ch);
      RunAlone(cfg, Exec(cfg, t, users, call, ch).0, users, Exec(cfg, t, users, call, ch).1, ch)
  }

  /** One step of a call run alone. */
  lemma Unfold(cfg: Config, t: Table, users: Users, call: Call, ch: Choice)
    requires !call.Finished?
    ensures var (t', call') := Exec(cfg, t, users, call, ch);
      && RunAlone(cfg, t, users, call, ch) == RunAlone(cfg, t', users, call', ch)
      && (call'.Finished? ==> RunAlone(cfg, t, users, call, ch) == (t', call'.outcome))
  {
  }

  /** A read followed by the write-back of one session. */
  lemma WriteBackAlone(cfg: Config, t: Table, users: Users, call: Call, s: Session, onDone: Outcome,
                       onNoRow: Outcome, ch: Choice)
    requires !call.Finished? && Exec(cfg, t, users, call, ch) == (t, WriteBack([s], onDone, onNoRow))
    ensures RunAlone(cfg, t, users, call, ch)
         == (UpdateRow(t, s).0, if UpdateRow(t, s).1.Written? then onDone else onNoRow)
  {
    Unfold(cfg, t, users, call, ch);
    Unfold(cfg, t, users, WriteBack([s], onDone, onNoRow), ch);
  }

  // ----- runs --------------------------------------------------------------------------------

  type CallId = nat

  /** For whom a hash was generated, and by which call. */
  datatype Origin = Origin(session: SessionId, minter: CallId)

  /** What a session was created with, and by which call. */
  datatype Birth = Birth(user: UserId, issuedAt: Time, expiresAt: Time, minter: CallId)

  /** History variables: no step reads them except to know which generated values are fresh. */
  datatype History = History(
    minted: map<Hash, Origin>,     // every hash ever generated
    stored: set<Hash>,             // hashes that have been in the table
    spent: set<Hash>,              // hashes that a Rotate has replaced
    born: map<SessionId, Birth>,   // every session id ever generated
    seen: set<SessionId>)          // ids that have been in the table

  datatype World = World(rows: Table, users: Users, calls: map<CallId, Call>, hist: History)

  datatype Action =
    | Begin(c: CallId, request: Call)
    | Advance(c: CallId, ch: Choice)
    | Abort(c: CallId)                      // the process or its connection dies mid-call
    | PutUser(user: UserId, status: UserDomain.Status) // user created, blocked, unblocked or soft-deleted
    | DropUser(user: UserId)                // user hard-deleted

  const EMPTY: World := World(map[], map[], map[], History(map[], {}, {}, map[], {}))

  ghost predicate Enabled(w: World, a: Action) {
    match a
    case Begin(c, request) => c !in w.calls && request.IsRequest()
    case Advance(c, ch) =>
      && c in w.calls
      && !w.calls[c].Finished?
      && ch.hash !in w.hist.minted
      && ch.id !in w.hist.born
      && (w.calls[c].RevokeOthers? ==> IsListing(w.rows, w.calls[c].caller, ch.listing))
    case Abort(c) => c in w.calls
    case PutUser(_, _) => true
    case DropUser(_) => true
  }

  /** Call `c` was at `before` with table `t` and is now at `after`. */
  ghost function Record(h: History, c: CallId, t: Table, users: Users, before: Call, after: Call): History {
    match after
    case RefreshRotate(copy, _, _) => h.(minted := h.minted[copy.hash := Origin(copy.id, c)])
    case Mint(row) =>
      h.(minted := h.minted[row.hash := Origin(row.id, c)],
         born := h.born[row.id := Birth(row.userId, row.issuedAt, row.expiresAt, c)])
    case _ =>
      if before.RefreshRotate? && RotateRow(t, before.copy, before.prev).1.Written? then
        h.(stored := h.stored + {before.copy.hash}, spent := h.spent + {before.prev})
      else if before.Mint? && InsertRow(t, before.row, before.row.userId in users).1.Written? then
        h.(stored := h.stored + {before.row.hash}, seen := h.seen + {before.row.id})
      else h
  }

  ghost function Step(cfg: Config, w: World, a: Action): World
    requires Enabled(w, a)
  {
    match a
    case Begin(c, request) => w.(calls := w.calls[c := request])
    case Advance(c, ch) =>
      var (t', call') := Exec(cfg, w.rows, w.users, w.calls[c], ch);
      World(t', w.users, w.calls[c := call'], Record(w.hist, c, w.rows, w.users, w.calls[c], call'))
    case Abort(c) => w.(calls := w.calls[c := Finished(Failed)])
    case PutUser(user, status) => w.(users := w.users[user := status])
    case DropUser(user) => w.(users := w.users - {user}, rows := DropUserRows(w.rows, user))
  }

  ghost predicate StepAt(cfg: Config, ws: seq<World>, acts: seq<Action>, i: nat)
    requires i < |acts| == |ws| - 1
  {
    Enabled(ws[i], acts[i]) && ws[i+1] == Step(cfg, ws[i], acts[i])
  }

  /** A run: `ws[i+1]` is `ws[i]` after `acts[i]`, from the empty system. */
  ghost predicate IsRun(cfg: Config, ws: seq<World>, acts: seq<Action>) {
    && |ws| == |acts| + 1
    && ws[0] == EMPTY
    && forall i :: 0 <= i < |acts| ==> StepAt(cfg, ws, acts, i)
  }

  // ----- the invariant -----------------------------------------------------------------------

  /** A value that some row had at some time, as far as its immutable columns and hash go. */
  ghost predicate Genuine(cfg: Config, h: History, s: Session) {
    && s.id in h.born
    && s.userId == h.born[s.id].user
    && s.issuedAt == h.born[s.id].issuedAt
    && s.expiresAt == h.born[s.id].expiresAt
    && s.expiresAt == s.issuedAt + cfg.refreshTTL
    && s.refreshExpiresAt <= s.expiresAt
    && s.hash in h.minted
    && h.minted[s.hash].session == s.id
  }

  ghost predicate RowOk(cfg: Config, h: History, id: SessionId, s: Session) {
    && s.id == id
    && Genuine(cfg, h, s)
    && s.id in h.seen
    && s.hash in h.stored
    && (!s.IsRevoked() ==> s.hash !in h.spent)
  }

  ghost predicate CallOk(cfg: Config, h: History, c: CallId, call: Call) {
    match call
    case RefreshUser(copy, prev, _) =>
      Genuine(cfg, h, copy) && copy.id in h.seen && copy.hash in h.stored && copy.hash == prev
    case RefreshRotate(copy, prev, _) =>
      // the new hash is this call's own and has not been written yet
      && Genuine(cfg, h, copy) && copy.id in h.seen
      && h.minted[copy.hash].minter == c && copy.hash !in h.stored
      && prev in h.stored && prev in h.minted && h.minted[prev].session == copy.id
    case WriteBack(queue, _, _) =>
      // every full-row write in flight revokes
      forall i :: 0 <= i < |queue| ==>
        && Genuine(cfg, h, queue[i]) && queue[i].id in h.seen && queue[i].hash in h.stored
        && queue[i].IsRevoked()
    case Mint(row) =>
      && Genuine(cfg, h, row) && !row.IsRevoked()
      && h.minted[row.hash].minter == c && row.hash !in h.stored
      && h.born[row.id].minter == c && row.id !in h.seen
    case _ => true
  }

  ghost predicate Inv(cfg: Config, w: World) {
    && w.hist.spent <= w.hist.stored
    && w.hist.stored <= w.hist.minted.Keys
    && w.hist.seen <= w.hist.born.Keys
    && (forall id :: id in w.rows ==> RowOk(cfg, w.hist, id, w.rows[id]))
    && (forall c :: c in w.calls ==> CallOk(cfg, w.hist, c, w.calls[c]))
  }
}

/** Every step of every call keeps the protocol invariant. */
module SessionInvariant {
  import opened Prelude
  import opened SessionDomain
  import opened SessionStore
  import opened SessionProtocol

  /** The history only grows, and what it newly stores was generated by call `c`. */
  ghost predicate Grows(h: History, h': History, c: CallId) {
    && (forall x :: x in h.minted ==> x in h'.minted && h'.minted[x] == h.minted[x])
    && (forall x :: x in h.born ==> x in h'.born && h'.born[x] == h.born[x])
    && h.stored <= h'.stored && h.seen <= h'.seen && h.spent <= h'.spent
    && (forall x :: x in h'.stored - h.stored ==> x in h'.minted && h'.minted[x].minter == c)
    && (forall x :: x in h'.seen - h.seen ==> x in h'.born && h'.born[x].minter == c)
  }

  /** A call that did not move stays fine when another call's step grows the history. */
  lemma OtherCallStays(cfg: Config, h: History, h': History, c: CallId, d: CallId, call: Call)
    requires CallOk(cfg, h, d, call) && Grows(h, h', c) && c != d
    ensures CallOk(cfg, h', d, call)
  {
  }

  lemma GenuineRevoke(cfg: Config, h: History, s: Session, now: Time)
    requires Genuine(cfg, h, s)
    ensures Genuine(cfg, h, s.Revoke(now)) && s.Revoke(now).IsRevoked()
    ensures s.Revoke(now).id == s.id && s.Revoke(now).hash == s.hash
  {
  }

  lemma {:induction false} OthersAre(listing: seq<Session>, current: SessionId, now: Time, i: nat)
    requires i < |Others(listing, current, now)|
    ensures exists s :: s in listing && !s.IsRevoked() && s.id != current
                        && Others(listing, current, now)[i] == s.Revoke(now)
  {
    var s := listing[0];
    if s.IsRevoked() || s.id == current {
      OthersAre(listing[1..], current, now, i);
    } else if i > 0 {
      OthersAre(listing[1..], current, now, i - 1);
    } else {
      assert s in listing;
    }
  }

  lemma RevokeAllKeepsRows(cfg: Config, h: History, t: Table, user: UserId, now: Time)
    requires forall id :: id in t ==> RowOk(cfg, h, id, t[id])
    ensures forall id :: id in RevokeAllRows(t, user, now) ==> RowOk(cfg, h, id, RevokeAllRows(t, user, now)[id])
  {
  }

  /** What Exec must keep about the rows, the moved call and the history. */
  ghost predicate Kept(cfg: Config, w: World, c: CallId, t': Table, call': Call) {
    && c in w.calls
    && var h' := Record(w.hist, c, w.rows, w.users, w.calls[c], call');
    && Grows(w.hist, h', c)
    && h'.spent <= h'.stored && h'.stored <= h'.minted.Keys && h'.seen <= h'.born.Keys
    && (forall id :: id in t' ==> RowOk(cfg, h', id, t'[id]))
    && CallOk(cfg, h', c, call')
  }

  lemma RotateKeeps(cfg: Config, w: World, c: CallId, ch: Choice)
    requires cfg.Valid() && Inv(cfg, w) && c in w.calls && w.calls[c].RefreshRotate?
    ensures var (t', call') := Exec(cfg, w.rows, w.users, w.calls[c], ch); Kept(cfg, w, c, t', call')
  {
    var RefreshRotate(copy, prev, now) := w.calls[c];
    var (t', call') := Exec(cfg, w.rows, w.users, w.calls[c], ch);
    var h' := Record(w.hist, c, w.rows, w.users, w.calls[c], call');
    if RotateRow(w.rows, copy, prev).1.Written? {
      forall id | id in t' ensures RowOk(cfg, h', id, t'[id]) {
        assert RowOk(cfg, w.hist, id, w.rows[id]);
      }
    }
  }

  lemma MintKeeps(cfg: Config, w: World, c: CallId, ch: Choice)
    requires cfg.Valid() && Inv(cfg, w) && c in w.calls && w.calls[c].Mint?
    ensures var (t', call') := Exec(cfg, w.rows, w.users, w.calls[c], ch); Kept(cfg, w, c, t', call')
  {
    assert CallOk(cfg, w.hist, c, w.calls[c]);
  }

  /** A step that writes at most revocations and generates nothing. */
  lemma QuietKeeps(cfg: Config, w: World, c: CallId, t': Table, call': Call)
    requires Inv(cfg, w) && c in w.calls && !w.calls[c].RefreshRotate? && !w.calls[c].Mint?
    requires !call'.RefreshRotate? && !call'.Mint?
    requires forall id :: id in t' ==> RowOk(cfg, w.hist, id, t'[id])
    requires CallOk(cfg, w.hist, c, call')
    ensures Kept(cfg, w, c, t', call')
  {
  }

  lemma WriteBackKeeps(cfg: Config, w: World, c: CallId, ch: Choice)
    requires cfg.Valid() && Inv(cfg, w) && c in w.calls && w.calls[c].WriteBack?
    ensures var (t', call') := Exec(cfg, w.rows, w.users, w.calls[c], ch); Kept(cfg, w, c, t', call')
  {
    var (t', call') := Exec(cfg, w.rows, w.users, w.calls[c], ch);
    assert CallOk(cfg, w.hist, c, w.calls[c]);
    forall id | id in t' ensures RowOk(cfg, w.hist, id, t'[id]) {
      if id in w.rows { assert RowOk(cfg, w.hist, id, w.rows[id]); }
    }
    QuietKeeps(cfg, w, c, t', call');
  }

  /** A step that generates the hash and id of a session to be created next. */
  lemma MintingKeeps(cfg: Config, w: World, c: CallId, t': Table, row: Session)
    requires cfg.Valid() && Inv(cfg, w) && c in w.calls
    requires row.hash !in w.hist.minted && row.id !in w.hist.born && !row.IsRevoked()
    requires row.expiresAt == row.issuedAt + cfg.refreshTTL && row.refreshExpiresAt <= row.expiresAt
    requires forall id :: id in t' ==> RowOk(cfg, w.hist, id, t'[id])
    ensures Kept(cfg, w, c, t', Mint(row))
  {
    var h' := Record(w.hist, c, w.rows, w.users, w.calls[c], Mint(row));
    forall id | id in t' ensures RowOk(cfg, h', id, t'[id]) {
      assert RowOk(cfg, w.hist, id, t'[id]);
    }
  }

  lemma FoundIsRow(cfg: Config, w: World, hash: Hash)
    requires Inv(cfg, w)
    ensures FindByHash(w.rows, hash).Some? ==>
      var s := FindByHash(w.rows, hash).value;
      s.id in w.rows && w.rows[s.id] == s && s.hash == hash && RowOk(cfg, w.hist, s.id, s)
  {
    if FindByHash(w.rows, hash).Some? {
      var id :| id in w.rows && w.rows[id] == FindByHash(w.rows, hash).value && w.rows[id].hash == hash;
      assert RowOk(cfg, w.hist, id, w.rows[id]);
    }
  }

  lemma RefreshKeeps(cfg: Config, w: World, c: CallId, ch: Choice)
    requires cfg.Valid() && Inv(cfg, w) && Enabled(w, Advance(c, ch))
    requires w.calls[c].Refresh? || w.calls[c].RefreshReplay?
    ensures var (t', call') := Exec(cfg, w.rows, w.users, w.calls[c], ch); Kept(cfg, w, c, t', call')
  {
    var (t', call') := Exec(cfg, w.rows, w.users, w.calls[c], ch);
    if w.calls[c].Refresh? {
      FoundIsRow(cfg, w, w.calls[c].hash);
    } else {
      RevokeAllKeepsRows(cfg, w.hist, w.rows, w.calls[c].user, w.calls[c].now);
    }
    QuietKeeps(cfg, w, c, t', call');
  }

  lemma RefreshUserKeeps(cfg: Config, w: World, c: CallId, ch: Choice)
    requires cfg.Valid() && Inv(cfg, w) && Enabled(w, Advance(c, ch)) && w.calls[c].RefreshUser?
    ensures var (t', call') := Exec(cfg, w.rows, w.users, w.calls[c], ch); Kept(cfg, w, c, t', call')
  {
    assert CallOk(cfg, w.hist, c, w.calls[c]);
    var (t', call') := Exec(cfg, w.rows, w.users, w.calls[c], ch);
    if call'.WriteBack? {
      GenuineRevoke(cfg, w.hist, w.calls[c].copy, w.calls[c].now);
      QuietKeeps(cfg, w, c, t', call');
    } else {
      var h' := Record(w.hist, c, w.rows, w.users, w.calls[c], call');
      forall id | id in t' ensures RowOk(cfg, h', id, t'[id]) {
        assert RowOk(cfg, w.hist, id, t'[id]);
      }
    }
  }

  lemma LookupByIdKeeps(cfg: Config, w: World, c: CallId, ch: Choice)
    requires cfg.Valid() && Inv(cfg, w) && Enabled(w, Advance(c, ch))
    requires w.calls[c].Logout? || w.calls[c].RevokeSession?
    ensures var (t', call') := Exec(cfg, w.rows, w.users, w.calls[c], ch); Kept(cfg, w, c, t', call')
  {
    var (t', call') := Exec(cfg, w.rows, w.users, w.calls[c], ch);
    var id := w.calls[c].id;
    if id in w.rows { GenuineRevoke(cfg, w.hist, w.rows[id], w.calls[c].now); }
    QuietKeeps(cfg, w, c, t', call');
  }

  lemma LookupByTokenKeeps(cfg: Config, w: World, c: CallId, ch: Choice)
    requires cfg.Valid() && Inv(cfg, w) && Enabled(w, Advance(c, ch)) && w.calls[c].RevokeToken?
    ensures var (t', call') := Exec(cfg, w.rows, w.users, w.calls[c], ch); Kept(cfg, w, c, t', call')
  {
    var (t', call') := Exec(cfg, w.rows, w.users, w.calls[c], ch);
    var found := FindByHash(w.rows, w.calls[c].hash);
    FoundIsRow(cfg, w, w.calls[c].hash);
    if found.Some? { GenuineRevoke(cfg, w.hist, found.value, w.calls[c].now); }
    QuietKeeps(cfg, w, c, t', call');
  }

  lemma BulkRevocationKeeps(cfg: Config, w: World, c: CallId, ch: Choice)
    requires cfg.Valid() && Inv(cfg, w) && Enabled(w, Advance(c, ch))
    requires w.calls[c].RevokeAll? || w.calls[c].RevokeOthers?
    ensures var (t', call') := Exec(cfg, w.rows, w.users, w.calls[c], ch); Kept(cfg, w, c, t', call')
  {
    var (t', call') := Exec(cfg, w.rows, w.users, w.calls[c], ch);
    if w.calls[c].RevokeAll? {
      RevokeAllKeepsRows(cfg, w.hist, w.rows, w.calls[c].caller, w.calls[c].now);
    } else {
      var queue := Others(ch.listing, w.calls[c].current, w.calls[c].now);
      forall i | 0 <= i < |queue|
        ensures Genuine(cfg, w.hist, queue[i]) && queue[i].id in w.hist.seen
                && queue[i].hash in w.hist.stored && queue[i].IsRevoked()
      {
        OthersAre(ch.listing, w.calls[c].current, w.calls[c].now, i);
      }
    }
    QuietKeeps(cfg, w, c, t', call');
  }

  lemma RevocationKeeps(cfg: Config, w: World, c: CallId, ch: Choice)
    requires cfg.Valid() && Inv(cfg, w) && Enabled(w, Advance(c, ch))
    requires var call := w.calls[c];
      call.Logout? || call.RevokeSession? || call.RevokeToken? || call.RevokeAll? || call.RevokeOthers?
    ensures var (t', call') := Exec(cfg, w.rows, w.users, w.calls[c], ch); Kept(cfg, w, c, t', call')
  {
    match w.calls[c]
    case RevokeToken(_, _, _) => LookupByTokenKeeps(cfg, w, c, ch);
    case RevokeAll(_, _) => BulkRevocationKeeps(cfg, w, c, ch);
    case RevokeOthers(_, _, _) => BulkRevocationKeeps(cfg, w, c, ch);
    case _ => LookupByIdKeeps(cfg, w, c, ch);
  }

  lemma CredentialKeeps(cfg: Config, w: World, c: CallId, ch: Choice)
    requires cfg.Valid() && Inv(cfg, w) && Enabled(w, Advance(c, ch))
    requires var call := w.calls[c];
      call.Login? || call.ChangePassword? || call.ResetPassword? || call.StorePassword? || call.RevokeBeforeMint?
    ensures var (t', call') := Exec(cfg, w.rows, w.users, w.calls[c], ch); Kept(cfg, w, c, t', call')
  {
    var (t', call') := Exec(cfg, w.rows, w.users, w.calls[c], ch);
    if w.calls[c].RevokeBeforeMint? {
      RevokeAllKeepsRows(cfg, w.hist, w.rows, w.calls[c].user, w.calls[c].now);
      MintingKeeps(cfg, w, c, t', call'.row);
    } else if call'.Mint? {
      MintingKeeps(cfg, w, c, t', call'.row);
    } else {
      QuietKeeps(cfg, w, c, t', call');
    }
  }

  lemma AdvanceKept(cfg: Config, w: World, c: CallId, ch: Choice)
    requires cfg.Valid() && Inv(cfg, w) && Enabled(w, Advance(c, ch))
    ensures var (t', call') := Exec(cfg, w.rows, w.users, w.calls[c], ch); Kept(cfg, w, c, t', call')
  {
    match w.calls[c]
    case RefreshRotate(_, _, _) => RotateKeeps(cfg, w, c, ch);
    case WriteBack(_, _, _) => WriteBackKeeps(cfg, w, c, ch);
    case Mint(_) => MintKeeps(cfg, w, c, ch);
    case Refresh(_, _) => RefreshKeeps(cfg, w, c, ch);
    case RefreshUser(_, _, _) => RefreshUserKeeps(cfg, w, c, ch);
    case RefreshReplay(_, _) => RefreshKeeps(cfg, w, c, ch);
    case Login(_, _, _, _) => CredentialKeeps(cfg, w, c, ch);
    case ChangePassword(_, _, _, _) => CredentialKeeps(cfg, w, c, ch);
    case ResetPassword(_, _, _, _) => CredentialKeeps(cfg, w, c, ch);
    case StorePassword(_, _, _) => CredentialKeeps(cfg, w, c, ch);
    case RevokeBeforeMint(_, _, _) => CredentialKeeps(cfg, w, c, ch);
    case _ => RevocationKeeps(cfg, w, c, ch);
  }

  lemma AdvanceKeepsInv(cfg: Config, w: World, c: CallId, ch: Choice)
    requires Inv(cfg, w) && Enabled(w, Advance(c, ch))
    requires var (t', call') := Exec(cfg, w.rows, w.users, w.calls[c], ch); Kept(cfg, w, c, t', call')
    ensures Inv(cfg, Step(cfg, w, Advance(c, ch)))
  {
    var (t', call') := Exec(cfg, w.rows, w.users, w.calls[c], ch);
    var h' := Record(w.hist, c, w.rows, w.users, w.calls[c], call');
    forall d | d in w.calls && d != c ensures CallOk(cfg, h', d, w.calls[d]) {
      OtherCallStays(cfg, w.hist, h', c, d, w.calls[d]);
    }
  }

  /** The history variables only ever grow. */
  ghost predicate Extends(h: History, h': History) {
    && h.spent <= h'.spent && h.stored <= h'.stored && h.seen <= h'.seen
    && (forall x :: x in h.minted ==> x in h'.minted && h'.minted[x] == h.minted[x])
    && (forall x :: x in h.born ==> x in h'.born && h'.born[x] == h.born[x])
  }

  /** The invariant survives every step of every interleaving. */
  lemma InvStep(cfg: Config, w: World, a: Action)
    requires cfg.Valid() && Inv(cfg, w) && Enabled(w, a)
    ensures Inv(cfg, Step(cfg, w, a)) && Extends(w.hist, Step(cfg, w, a).hist)
  {
    if a.Advance? {
      AdvanceKept(cfg, w, a.c, a.ch);
      AdvanceKeepsInv(cfg, w, a.c, a.ch);
    }
  }

  /** The invariant holds at every point of every run. */
  lemma {:induction false} InvRun(cfg: Config, ws: seq<World>, acts: seq<Action>, i: nat)
    requires cfg.Valid() && IsRun(cfg, ws, acts) && i < |ws|
    ensures Inv(cfg, ws[i])
  {
    if i > 0 {
      InvRun(cfg, ws, acts, i - 1);
      assert StepAt(cfg, ws, acts, i - 1);
      InvStep(cfg, ws[i-1], acts[i-1]);
    }
  }

  lemma HistoryStep(cfg: Config, ws: seq<World>, acts: seq<Action>, i: nat)
    requires cfg.Valid() && IsRun(cfg, ws, acts) && i < |acts|
    ensures Extends(ws[i].hist, ws[i+1].hist)
  {
    InvRun(cfg, ws, acts, i);
    assert StepAt(cfg, ws, acts, i);
    InvStep(cfg, ws[i], acts[i]);
  }

  lemma ExtendsTransitive(a: History, b: History, c: History)
    requires Extends(a, b) && Extends(b, c)
    ensures Extends(a, c)
  {
  }

  lemma {:induction false} HistoryGrows(cfg: Config, ws: seq<World>, acts: seq<Action>, i: nat, k: nat)
    requires cfg.Valid() && IsRun(cfg, ws, acts) && i <= k < |ws|
    ensures Extends(ws[i].hist, ws[k].hist)
  {
    if i < k {
      HistoryGrows(cfg, ws, acts, i, k - 1);
      HistoryStep(cfg, ws, acts, k - 1);
      ExtendsTransitive(ws[i].hist, ws[k-1].hist, ws[k].hist);
    }
  }
}

/** Recovery-code batches: the aggregate, the two tables and the repository. */
module RecoveryStore {
  import opened Prelude
  import opened RecoveryGenerator
  import opened UserDomain

  datatype BatchId = BatchId(text: string)

  /** `usedAt` is None while the code is unused. */
  datatype Code = Code(hash: Digest, usedAt: Option<Time>)

  datatype BatchRow = BatchRow(user: UserId, generatedAt: Time, revokedAt: Option<Time>)

  // ----- the aggregate -----------------------------------------------------------------------

  class Batch {
    const id: BatchId
    const user: UserId
    const generatedAt: Time
    var revokedAt: Option<Time>
    var codes: seq<Code>

    constructor (id: BatchId, user: UserId, generatedAt: Time, hashes: seq<Digest>)
      ensures this.id == id && this.user == user && this.generatedAt == generatedAt && revokedAt == None
      ensures |codes| == |hashes| && forall i :: 0 <= i < |hashes| ==> codes[i] == Code(hashes[i], None)
    {
      this.id, this.user, this.generatedAt, revokedAt := id, user, generatedAt, None;
      codes := seq(|hashes|, i requires 0 <= i < |hashes| => Code(hashes[i], None));
    }

    method Revoke(now: Time)
      modifies this
      ensures revokedAt == (if old(revokedAt).Some? then old(revokedAt) else Some(now)) && codes == old(codes)
    {
      if revokedAt.Some? { return; }
      revokedAt := Some(now);
    }

    /** Spends the first code with the hash: it is the only change, and it happens exactly when the
        batch is active and that code is unused. */
    method ConsumeByHash(hash: Digest, now: Time) returns (ok: bool)
      modifies this
      ensures revokedAt == old(revokedAt)
      ensures ok <==> revokedAt.None? && exists i :: FirstUnused(old(codes), hash, i)
      ensures ok ==> exists i :: FirstUnused(old(codes), hash, i) && codes == old(codes)[i := Code(hash, Some(now))]
      ensures !ok ==> codes == old(codes)
    {
      if revokedAt.Some? { return false; }
      for i := 0 to |codes|
        invariant codes == old(codes) && revokedAt == old(revokedAt)
        invariant forall j :: 0 <= j < i ==> codes[j].hash != hash
      {
        if codes[i].hash != hash { continue; }
        if codes[i].usedAt.Some? {
          return false;
        }
        assert FirstUnused(codes, hash, i);
        codes := codes[i := codes[i].(usedAt := Some(now))];
        return true;
      }
      return false;
    }
  }

  /** Code i is the first with this hash, and it is unused. */
  predicate FirstUnused(codes: seq<Code>, hash: Digest, i: int) {
    && 0 <= i < |codes| && codes[i] == Code(hash, None)
    && forall j :: 0 <= j < i ==> codes[j].hash != hash
  }

  // ----- the tables --------------------------------------------------------------------------

  type CodeKey = (BatchId, Digest)

  /** Primary keys: the batch id, and the pair of batch and hash. */
  datatype Tables = Tables(batches: map<BatchId, BatchRow>, codes: map<CodeKey, Option<Time>>)

  /** UPDATE recovery_codes SET used_at WHERE batch, hash AND used_at IS NULL; the batch's own state
      is not looked at. */
  predicate ConsumeMatches(t: Tables, k: CodeKey) { k in t.codes && t.codes[k].None? }

  function ConsumeRow(t: Tables, k: CodeKey, now: Time): Tables {
    if ConsumeMatches(t, k) then t.(codes := t.codes[k := Some(now)]) else t
  }

  function RevokeActive(t: Tables, user: UserId, now: Time): Tables {
    t.(batches := map b | b in t.batches ::
      if t.batches[b].user == user && t.batches[b].revokedAt.None? then t.batches[b].(revokedAt := Some(now))
      else t.batches[b])
  }

  /** ON DELETE CASCADE from users to batches to codes. */
  function DropUserBatches(t: Tables, user: UserId): Tables {
    var left := map b | b in t.batches && t.batches[b].user != user :: t.batches[b];
    Tables(left, map k | k in t.codes && k.0 in left :: t.codes[k])
  }

  function CodeKeys(id: BatchId, hashes: seq<Digest>): set<CodeKey> { set h | h in hashes :: (id, h) }

  function NewCodes(id: BatchId, hashes: seq<Digest>): map<CodeKey, Option<Time>> {
    map k | k in CodeKeys(id, hashes) :: None
  }

  /** The transaction of CreateBatch; None when any insert fails. */
  function CreateRows(t: Tables, id: BatchId, row: BatchRow, hashes: seq<Digest>, userExists: bool): Option<Tables> {
    if id in t.batches || !userExists || !Distinct(hashes) || !(CodeKeys(id, hashes) !! t.codes.Keys) then None
    else Some(Tables(t.batches[id := row], t.codes + NewCodes(id, hashes)))
  }

  /** Some active batch of the user, if there is one. */
  ghost predicate IsActiveBatch(t: Tables, user: UserId, found: Option<BatchId>) {
    match found
    case Some(b) => b in t.batches && t.batches[b].user == user && t.batches[b].revokedAt.None?
    case None => forall b :: b in t.batches && t.batches[b].user == user ==> t.batches[b].revokedAt.Some?
  }

  /** A batch as it is loaded: its row and each of its codes once. */
  datatype StoredBatch = StoredBatch(id: BatchId, row: BatchRow, codes: seq<Code>)

  ghost predicate IsStored(t: Tables, b: StoredBatch) {
    && b.id in t.batches && t.batches[b.id] == b.row
    && (forall c :: c in b.codes <==> (b.id, c.hash) in t.codes && t.codes[(b.id, c.hash)] == c.usedAt)
    && (forall i, j :: 0 <= i < j < |b.codes| ==> b.codes[i].hash != b.codes[j].hash)
  }

  /** On an active batch that is stored code by code, the aggregate accepts a hash exactly when the
      conditional UPDATE does. */
  lemma AggregateAgreesWithUpdate(t: Tables, b: StoredBatch, hash: Digest)
    requires IsStored(t, b)
    ensures (exists i :: FirstUnused(b.codes, hash, i)) <==> ConsumeMatches(t, (b.id, hash))
  {
    var id, codes := b.id, b.codes;
    if i :| FirstUnused(codes, hash, i) {
      assert codes[i] in codes;
    }
    if ConsumeMatches(t, (id, hash)) {
      assert Code(hash, None) in codes;
      var i :| 0 <= i < |codes| && codes[i] == Code(hash, None);
      assert FirstUnused(codes, hash, i);
    }
  }

  // ----- repository --------------------------------------------------------------------------

  class Repository {
    var db: Tables

    constructor ()
      ensures db == Tables(map[], map[])
    {
      db := Tables(map[], map[]);
    }

    /** The batch and all its codes, or nothing. */
    method CreateBatch(id: BatchId, row: BatchRow, hashes: seq<Digest>, userExists: bool) returns (ok: bool)
      modifies this
      ensures ok <==> CreateRows(old(db), id, row, hashes, userExists).Some?
      ensures db == if ok then CreateRows(old(db), id, row, hashes, userExists).value else old(db)
    {
      var saved := db;
      if id in db.batches || !userExists { return false; }
      db := db.(batches := db.batches[id := row]);
      var inserted, codes := InsertCodes(db.codes, id, hashes);
      if !inserted {
        db := saved;
        return false;
      }
      db := db.(codes := codes);
      return true;
    }

    /** The insert loop of the transaction: it stops at the first duplicate. */
    static method InsertCodes(codes: map<CodeKey, Option<Time>>, id: BatchId, hashes: seq<Digest>)
      returns (ok: bool, out: map<CodeKey, Option<Time>>)
      ensures ok <==> Distinct(hashes) && CodeKeys(id, hashes) !! codes.Keys
      ensures ok ==> out == codes + NewCodes(id, hashes)
    {
      out := codes;
      for i := 0 to |hashes|
        invariant out == codes + NewCodes(id, hashes[..i])
        invariant Distinct(hashes[..i]) && CodeKeys(id, hashes[..i]) !! codes.Keys
      {
        var k := (id, hashes[i]);
        if k in out {
          if hashes[i] in hashes[..i] {
            var j :| 0 <= j < i && hashes[j] == hashes[i];
          } else {
            assert k in CodeKeys(id, hashes) && k in codes.Keys;
          }
          return false, out;
        }
        NewCodesNext(id, hashes, i);
        out := out[k := None];
      }
      assert hashes[..|hashes|] == hashes;
      ok := true;
    }

    /** One active batch of the user with all its codes: two queries in one repository call. */
    method GetActiveBatchByUser(user: UserId) returns (found: Option<StoredBatch>)
      ensures IsActiveBatch(db, user, if found.Some? then Some(found.value.id) else None)
      ensures found.Some? ==> IsStored(db, found.value)
    {
      if b :| b in db.batches && db.batches[b].user == user && db.batches[b].revokedAt.None? {
        var codes := ListCodesByBatch(b);
        return Some(StoredBatch(b, db.batches[b], codes));
      }
      return None;
    }

    method ListCodesByBatch(id: BatchId) returns (codes: seq<Code>)
      ensures forall c :: c in codes <==> (id, c.hash) in db.codes && db.codes[(id, c.hash)] == c.usedAt
      ensures forall i, j :: 0 <= i < j < |codes| ==> codes[i].hash != codes[j].hash
    {
      codes := [];
      var pending := set k | k in db.codes && k.0 == id :: k.1;
      ghost var all := pending;
      while pending != {}
        invariant pending <= all && all == set k | k in db.codes && k.0 == id :: k.1
        invariant forall h :: h in pending ==> (id, h) in db.codes
        invariant forall c :: c in codes <==> c.hash in all - pending && db.codes[(id, c.hash)] == c.usedAt
        invariant forall i :: 0 <= i < |codes| ==> codes[i].hash in all - pending
        invariant forall i, j :: 0 <= i < j < |codes| ==> codes[i].hash != codes[j].hash
        decreases pending
      {
        var h :| h in pending;
        pending := pending - {h};
        codes := codes + [Code(h, db.codes[(id, h)])];
      }
      forall c ensures c in codes <==> (id, c.hash) in db.codes && db.codes[(id, c.hash)] == c.usedAt {
        assert (id, c.hash) in db.codes ==> (id, c.hash).0 == id && c.hash in all;
      }
    }

    /** The user is left without an active batch; earlier revocation times, other users' batches and
        all codes are kept. */
    method RevokeActiveBatchesForUser(user: UserId, now: Time)
      modifies this
      ensures db == RevokeActive(old(db), user, now)
      ensures IsActiveBatch(db, user, None) && db.codes == old(db).codes && db.batches.Keys == old(db).batches.Keys
      ensures forall b :: b in db.batches && (old(db).batches[b].user != user || old(db).batches[b].revokedAt.Some?) ==>
        db.batches[b] == old(db).batches[b]
    {
      db := db.(batches := map b | b in db.batches ::
        if db.batches[b].user == user && db.batches[b].revokedAt.None? then db.batches[b].(revokedAt := Some(now))
        else db.batches[b]);
    }

    /** Accepted at most once: afterwards the code does not match any more, whatever the answer. No
        other code and no batch is touched. */
    method ConsumeCode(id: BatchId, hash: Digest, now: Time) returns (ok: bool)
      modifies this
      ensures ok == ConsumeMatches(old(db), (id, hash))
      ensures db == ConsumeRow(old(db), (id, hash), now)
      ensures !ConsumeMatches(db, (id, hash)) && db.batches == old(db).batches
      ensures forall k :: k != (id, hash) ==> (ConsumeMatches(db, k) <==> ConsumeMatches(old(db), k))
      ensures ok ==> db.codes[(id, hash)] == Some(now)
    {
      var k := (id, hash);
      if k !in db.codes || db.codes[k].Some? { return false; }
      db := db.(codes := db.codes[k := Some(now)]);
      return true;
    }
  }

  lemma NewCodesNext(id: BatchId, hashes: seq<Digest>, i: nat)
    requires i < |hashes|
    ensures NewCodes(id, hashes[..i+1]) == NewCodes(id, hashes[..i])[(id, hashes[i]) := None]
    ensures CodeKeys(id, hashes[..i+1]) == CodeKeys(id, hashes[..i]) + {(id, hashes[i])}
  {
    assert hashes[..i+1] == hashes[..i] + [hashes[i]];
  }
}

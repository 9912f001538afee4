/**
 Generating a batch and redeeming a code as the service runs them. Each is proved to do to the
 tables, and to answer, exactly what its call of RecoveryProtocol does when nothing runs in between.
 */
module RecoveryService {
  import opened Prelude
  import Generator = RecoveryGenerator
  import opened RecoveryAnswers
  import opened RecoveryProtocol
  import opened RecoveryStore
  import opened UserDomain

  class Service {
    const repo: Repository
    var users: Users

    constructor (repo: Repository, users: Users)
      ensures this.repo == repo && this.users == users
    {
      this.repo, this.users := repo, users;
    }

    /** `batchId` is freshly generated; `draws` is what the random source delivers. Earlier batches
        are revoked before the new one exists, also when no new one comes to be. */
    method GenerateRecoveryCodes(user: UserId, now: Time, batchId: BatchId, draws: seq<seq<Generator.Byte>>)
      returns (o: Outcome, ghost ch: Choice)
      requires forall i :: 0 <= i < |draws| ==> |draws[i]| == Generator.CODE_LENGTH
      modifies repo
      ensures (repo.db, o) == RunAlone(old(repo.db), users, Call.Generate(user, now), ch)
      ensures ch.batch == batchId && (ch.codes.Some? ==> Generator.IsBatch(ch.codes.value))
      ensures o.Issued? ==> ch.codes == Some(o.codes) && o.codes == Generator.Collected(draws)
      ensures GenerateAnswer(old(repo.db), users, user, now, ch, repo.db, o)
      ensures user in users && users[user].Active? ==>
        forall b :: IsActive(old(repo.db), user, b) ==>
          b in repo.db.batches && repo.db.batches[b].revokedAt == Some(now)
      ensures o.Issued? ==> forall b :: IsActive(repo.db, user, b) <==> b == batchId
    {
      ch := Choice(batchId, None, None);
      if user !in users { return InvalidToken, ch; }
      if users[user] == Deleted { return Outcome.UserDeleted, ch; }
      if users[user] == Blocked { return UserBlocked, ch; }
      ghost var start := repo.db;
      repo.RevokeActiveBatchesForUser(user, now);
      var generated := Generator.Generate(draws);
      if generated.Some? { ch := Choice(batchId, Some(generated.value.0), None); }
      Unfold(start, users, Call.Generate(user, now), ch);
      Unfold(start, users, GenerateRevoke(user, now), ch);
      Unfold(repo.db, users, GenerateCreate(user, now), ch);
      GenerateAnswers(start, users, user, now, ch);
      GenerateRetires(start, users, user, now, ch);
      if generated.None? { return Failed, ch; }
      var (codes, hashes) := generated.value;
      var ok := repo.CreateBatch(batchId, BatchRow(user, now, None), hashes, user in users);
      if !ok { return Failed, ch; }
      return Issued(codes), ch;
    }

    /** The part of ResetPasswordWithRecoveryCode that spends the code. */
    method RedeemCode(user: UserId, typed: string, now: Time) returns (o: Outcome, ghost ch: Choice)
      modifies repo
      ensures (repo.db, o) == RunAlone(old(repo.db), users, Reset(user, typed, now), ch)
      ensures RedeemAnswer(old(repo.db), users, user, typed, now, ch, repo.db, o)
      ensures user in users && users[user].Active? ==> IsActiveBatch(old(repo.db), user, ch.found)
    {
      ch := Choice(BatchId(""), None, None);
      if user !in users { return UserMissing, ch; }
      if users[user] == Deleted { return Outcome.UserDeleted, ch; }
      if users[user] == Blocked { return UserBlocked, ch; }
      var found := repo.GetActiveBatchByUser(user);
      if found.Some? { ch := ch.(found := Some(found.value.id)); }
      Unfold(repo.db, users, Reset(user, typed, now), ch);
      Unfold(repo.db, users, ResetLoad(user, typed, now), ch);
      if found.None? { return InvalidCode, ch; }
      Unfold(repo.db, users, ResetConsume(found.value.id, typed, now), ch);
      var hash := Generator.HashNormalised(typed);
      var ok := repo.ConsumeCode(found.value.id, hash, now);
      if !ok { return InvalidCode, ch; }
      return Redeemed, ch;
    }
  }
}

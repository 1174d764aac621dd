/** What the segments of each component leave alone. */
module Frames {
  import opened Wrappers
  import opened DocumentRecord
  import opened Steps

  lemma IngestionFrame(r: Record, s: IngestionStep, env: Env)
    requires EnabledIngestion(r, s, env)
    ensures var r' := ApplyIngestion(r, s, env);
            && r'.key == r.key && r'.hash == r.hash && r'.deletion == r.deletion && r'.deleters == r.deleters
            && r'.reindex == r.reindex && r'.builders == r.builders && r'.cleanup == r.cleanup && r'.cleaners == r.cleaners
            && r'.activations == r.activations && r.served <= r'.served
            && (!s.UpsertIngestion? ==> r'.points == r.points)
            && (!s.FinishIngestion? ==> r'.collection == r.collection && r'.served == r.served)
  {
    match s
    case ClaimIngestion(_) =>
    case EmbedDocument(_, _, _, _) =>
    case UpsertIngestion(_) =>
    case FinishIngestion(_) =>
    case FailIngestion(_) =>
    case CrashIngestion(_) =>
    case CheckRetry(_) =>
    case LockRetryRows(_) =>
    case FlipRetry(_) =>
    case InsertRetry(_) =>
    case RecoverIngestion(_) =>
  }

  lemma ReindexFrame(r: Record, s: ReindexStep, env: Env)
    requires EnabledReindex(r, s, env)
    ensures var r' := ApplyReindex(r, s, env);
            && r'.key == r.key && r'.hash == r.hash && r'.deletion == r.deletion && r'.deleters == r.deleters
            && r'.collection == r.collection && r'.ingestion == r.ingestion && r'.cleanup == r.cleanup
            && r'.activations == r.activations && r'.served == r.served && r'.cleaners == r.cleaners
            && (!s.UpsertBuild? ==> r'.points == r.points)
  {
    match s
    case ReadSource(_, _) =>
    case ReadBuilds(_) =>
    case ReadIngestion(_) =>
    case ReadDeletions(_) =>
    case EnsureTarget(_, _) =>
    case InsertReindex(_) =>
    case DropSchedule(_) =>
    case ClaimReindex(_) =>
    case CheckDeletion(_) =>
    case EmbedBuild(_, _) =>
    case UpsertBuild(_) =>
    case FinishBuild(_) =>
    case FailBuild(_) =>
    case CrashBuild(_) =>
  }

  lemma CutoverFrame(r: Record, s: CutoverStep, env: Env)
    requires EnabledCutover(r, s, env)
    ensures var r' := ApplyCutover(r, s, env);
            && r'.key == r.key && r'.hash == r.hash && r'.deletion == r.deletion && r'.deleters == r.deleters
            && r'.ingestion == r.ingestion && r'.ingesters == r.ingesters && r'.builders == r.builders
            && r.served <= r'.served && r.activations <= r'.activations
            && (!s.EraseCleanup? ==> r'.points == r.points)
            && (!s.CommitActivation? ==> r'.collection == r.collection)
  {
    match s
    case BeginActivation(_) =>
    case CommitActivation =>
    case AbortActivation =>
    case ClaimCleanup(_, _) =>
    case GuardCleanup(_) =>
    case EraseCleanup(_, _) =>
    case FinishCleanup(_) =>
    case CrashCleanup(_) =>
  }

  lemma DeletionFrame(r: Record, s: DeletionStep)
    requires EnabledDeletion(r, s)
    ensures var r' := ApplyDeletion(r, s);
            && r'.key == r.key && (r'.hash == r.hash || r'.hash == None)
            && r'.collection == r.collection && r'.ingestion == r.ingestion && r'.ingesters == r.ingesters
            && r'.reindex == r.reindex && r'.builders == r.builders && r'.cleanup == r.cleanup && r'.cleaners == r.cleaners
            && r'.activations == r.activations && r'.served == r.served
            && |r.deletion| <= |r'.deletion|
            && (!s.EraseNext? ==> r'.points == r.points)
            && (s.AskDeletions? || s.AskIngestion? || s.AskReindex? ==> r'.deletion == r.deletion)
  {
    match s
    case AskDeletions(_) =>
    case AskIngestion(_) =>
    case AskReindex(_) =>
    case InsertDeletion(_) =>
    case ClaimDeletion(_) =>
    case ReadCurrent(_) =>
    case ReadCleanups(_) =>
    case ReadTargets(_) =>
    case EraseNext(_, _) =>
    case CommitVectors(_) =>
    case DeleteObject(_, _) =>
    case FinishDeletion(_) =>
    case CrashDeletion(_) =>
  }
}

/** What every reachable record satisfies. Each part reads only the fields it constrains. */
module Invariant {
  import opened Wrappers
  import opened DocumentRecord
  import opened Steps

  // ----- rows and the workers on them -----

  /** Every ingestion row but the latest is terminal. */
  ghost predicate IngestionRows(ingestion: seq<IngestionJob>) {
    ingestion != [] && forall j :: 0 <= j < |ingestion| - 1 ==> !ActiveJob(ingestion[j].status)
  }

  /** A live worker's job, and the job of any worker that has upserted, is PROCESSING (a live worker whose
      object is gone may also have been given up); every PROCESSING job has a worker, possibly dead. */
  ghost predicate Ingesters(ingestion: seq<IngestionJob>, ingesters: map<nat, Ingester>, catalog: map<Collection, Metadata>,
                            stored: bool) {
    && (forall j :: j in ingesters ==>
          && j < |ingestion|
          && (ingesters[j].phase.Upserted? ==> ingestion[j].status == Processing)
          && (ingesters[j].alive ==>
                || ingestion[j].status == Processing
                || (!stored && ingesters[j].phase.Reading? && ingestion[j].status == Failed))
          && (ingesters[j].phase.Embedded? ==> ingesters[j].phase.count >= 1)
          && (!ingesters[j].phase.Reading? ==> ingesters[j].phase.target in catalog))
    && (forall j :: 0 <= j < |ingestion| && ingestion[j].status == Processing ==> j in ingesters)
  }

  /** Every re-index row but the latest is terminal. */
  ghost predicate ReindexRows(reindex: seq<ReindexJob>, catalog: map<Collection, Metadata>) {
    && (forall j :: 0 <= j < |reindex| - 1 ==> !ActiveJob(reindex[j].status))
    && (forall j :: 0 <= j < |reindex| ==>
          && reindex[j].source != reindex[j].target
          && reindex[j].target in catalog
          && (reindex[j].activated ==> reindex[j].status == Completed))
  }

  ghost predicate Builders(reindex: seq<ReindexJob>, builders: map<nat, Builder>) {
    && (forall j :: j in builders ==>
          && j < |reindex|
          && reindex[j].status == Processing
          && (builders[j].phase.BuildReady? ==> builders[j].phase.count >= 1))
    && (forall j :: 0 <= j < |reindex| && reindex[j].status == Processing ==> j in builders)
  }

  /** Every deletion row but the latest is terminal; a completed one has both flags set. */
  ghost predicate DeletionRows(deletion: seq<DeletionJob>) {
    && (forall j :: 0 <= j < |deletion| - 1 ==> !ActiveDeletion(deletion[j].status))
    && (forall j :: 0 <= j < |deletion| && deletion[j].status == DeletionCompleted ==>
          deletion[j].vectorsCleaned && deletion[j].objectCleaned)
  }

  ghost predicate Deleters(deletion: seq<DeletionJob>, deleters: map<nat, DeletePhase>) {
    forall j :: j in deleters ==>
      && j == |deletion| - 1
      && deletion[j].status == DeletionProcessing
      && (deleters[j].ObjectGone? || deleters[j].VectorsGone? || deleters[j].ObjectKept? ==> deletion[j].vectorsCleaned)
  }

  ghost predicate Schedulers(schedulers: map<nat, Scheduler>, catalog: map<Collection, Metadata>) {
    forall q :: q in schedulers ==>
      && schedulers[q].source != schedulers[q].target
      && (schedulers[q].phase.TargetEnsured? ==> schedulers[q].target in catalog)
  }

  ghost predicate Cleaners(cleanup: seq<CleanupJob>, cleaners: map<nat, Cleaner>) {
    forall w :: w in cleaners ==> cleaners[w].row < |cleanup|
  }

  // ----- how the tables constrain each other -----

  /** The document is indexed exactly when its latest ingestion row is COMPLETED; after the object is gone
      vain attempts may follow. */
  ghost predicate Indexed(collection: Option<Collection>, metadata: Option<Metadata>, ingestion: seq<IngestionJob>,
                    catalog: map<Collection, Metadata>, stored: bool) {
    && ingestion != []
    && (Last(ingestion).status == Completed ==> collection.Some?)
    && (stored && collection.Some? ==> Last(ingestion).status == Completed)
    && (collection.Some? <==> metadata.Some?)
    && (collection.Some? ==> collection.value in catalog)
  }

  /** Before its first index a document has no re-index or cleanup history at all. */
  ghost predicate Unindexed(collection: Option<Collection>, reindex: seq<ReindexJob>, cleanup: seq<CleanupJob>,
                            schedulers: map<nat, Scheduler>, builders: map<nat, Builder>, cleaners: map<nat, Cleaner>,
                            activating: Option<nat>, served: seq<Collection>) {
    collection.None? ==>
      && reindex == [] && cleanup == [] && served == [] && activating == None
      && schedulers == map[] && builders == map[] && cleaners == map[]
  }

  /** Once a deletion row exists nothing can write points any more. */
  ghost predicate Quiet(deletion: seq<DeletionJob>, ingestion: seq<IngestionJob>, ingesters: map<nat, Ingester>,
                        builders: map<nat, Builder>, stored: bool) {
    deletion != [] ==>
      && (stored ==> !IngestionActive(ingestion))
      && (forall j :: j in ingesters ==> !ingesters[j].phase.Upserted? && (ingesters[j].alive ==> ingesters[j].phase.Reading?))
      && (forall j :: j in builders ==> !WritesLater(builders[j]))
  }

  /** The activation holding the row lock is of a built, not yet activated job whose source is current. */
  ghost predicate Activating(activating: Option<nat>, reindex: seq<ReindexJob>, collection: Option<Collection>) {
    activating.Some? ==>
      var j := activating.value;
      j < |reindex| && reindex[j].status == Completed && !reindex[j].activated && collection == Some(reindex[j].source)
  }

  // ----- where points can be -----

  /** Accounted for by a completed or a still PROCESSING build. */
  ghost predicate BuildAccounted(reindex: seq<ReindexJob>, builders: map<nat, Builder>, c: Collection) {
    CompletedTarget(reindex, c) || BuiltTarget(reindex, builders, c)
  }

  ghost predicate Accounted(r: Record, c: Collection) {
    Tracked(r, c) || BuiltTarget(r.reindex, r.builders, c) || IngestedInto(r.ingestion, r.ingesters, c)
  }

  /** Every collection holding the document's points is tracked, or being written by a PROCESSING job. */
  ghost predicate Tracking(r: Record) {
    forall c :: Held(r.points, c) ==> Accounted(r, c)
  }

  /** What an ingestion worker upserted stays until its job is resolved. */
  ghost predicate Ingested(ingestion: seq<IngestionJob>, ingesters: map<nat, Ingester>, points: map<Collection, set<nat>>) {
    forall j :: j in ingesters && j < |ingestion| && ingesters[j].phase.Upserted? && ingestion[j].status == Processing ==>
      Held(points, ingesters[j].phase.target)
  }

  /** If a cleanup's collection holds points after its delete, a later build put them there. */
  ghost predicate Swept(cleanup: seq<CleanupJob>, cleaners: map<nat, Cleaner>, reindex: seq<ReindexJob>,
                  builders: map<nat, Builder>, points: map<Collection, set<nat>>) {
    forall w :: w in cleaners && cleaners[w].phase.CleanDeleted? && cleaners[w].row < |cleanup|
                && Held(points, cleanup[cleaners[w].row].collection)
      ==> BuildAccounted(reindex, builders, cleanup[cleaners[w].row].collection)
  }

  // ----- the deletion worker's three reads and its deletes -----

  /** What the deletion worker has read so far, with what it has still to read, covers every collection
      that holds points; and after the deletes nothing does. */
  ghost predicate Covering(d: DeletePhase, points: map<Collection, set<nat>>, cleanup: seq<CleanupJob>,
                           cleaners: map<nat, Cleaner>, reindex: seq<ReindexJob>, stored: bool) {
    match d
    case Starting => true
    case CurrentRead(attempts) =>
      Distinct(attempts) && forall c :: Held(points, c) ==> c in attempts || StaysOpen(cleanup, cleaners, c) || CompletedTarget(reindex, c)
    case CleanupsRead(attempts) =>
      Distinct(attempts) && forall c :: Held(points, c) ==> c in attempts || CompletedTarget(reindex, c)
    case Deleting(attempts, next, failed) =>
      && Distinct(attempts) && next <= |attempts|
      && (forall c :: Held(points, c) ==> c in attempts && (!failed ==> c in attempts[next..]))
    case VectorsGone => Empty(points)
    case ObjectGone => Empty(points) && !stored
    case ObjectKept => Empty(points)
  }

  ghost predicate Empty(points: map<Collection, set<nat>>) {
    forall c :: !Held(points, c)
  }

  ghost predicate Covered(deleters: map<nat, DeletePhase>, points: map<Collection, set<nat>>, cleanup: seq<CleanupJob>,
                          cleaners: map<nat, Cleaner>, reindex: seq<ReindexJob>, stored: bool) {
    forall j :: j in deleters ==> Covering(deleters[j], points, cleanup, cleaners, reindex, stored)
  }

  /** A completed deletion left nothing behind. */
  ghost predicate Erased(deletion: seq<DeletionJob>, points: map<Collection, set<nat>>, hash: Option<Digest>, stored: bool) {
    DeletionDone(deletion) ==> Empty(points) && hash == None && !stored
  }

  /** The object is in storage, and the hash held, until a deletion says otherwise. */
  ghost predicate Kept(deletion: seq<DeletionJob>, hash: Option<Digest>, stored: bool) {
    && (deletion == [] ==> stored)
    && (!DeletionDone(deletion) ==> hash.Some?)
  }

  // ----- the cutover history -----

  /** `served` lists the collections served, `activations` the jobs that moved the document from one to
      the next; each move left one cleanup row, in order. */
  ghost predicate History(collection: Option<Collection>, served: seq<Collection>, activations: seq<nat>,
                          reindex: seq<ReindexJob>, cleanup: seq<CleanupJob>) {
    && (collection.Some? ==> |served| == |cleanup| + 1 && Last(served) == collection.value)
    && |activations| == |cleanup|
    && (forall k :: 0 <= k < |cleanup| ==> k < |served| && cleanup[k].collection == served[k])
    && (forall k :: 0 <= k < |activations| ==> Moved(served, activations[k], reindex, k))
    && Distinct(activations)
    && (forall j :: 0 <= j < |reindex| && reindex[j].activated ==> j in activations)
  }

  /** Job `j`, activated, moved the document from the `k`-th collection it served to the next. */
  ghost predicate Moved(served: seq<Collection>, j: nat, reindex: seq<ReindexJob>, k: nat) {
    && j < |reindex| && reindex[j].activated
    && k + 1 < |served| && reindex[j].source == served[k] && reindex[j].target == served[k + 1]
  }

  ghost predicate Rows(r: Record, env: Env) {
    && IngestionRows(r.ingestion)
    && Ingesters(r.ingestion, r.ingesters, env.catalog, env.stored)
    && ReindexRows(r.reindex, env.catalog)
    && Builders(r.reindex, r.builders)
    && DeletionRows(r.deletion)
    && Deleters(r.deletion, r.deleters)
    && Schedulers(r.schedulers, env.catalog)
    && Cleaners(r.cleanup, r.cleaners)
  }

  ghost predicate Links(r: Record, env: Env) {
    && Indexed(r.collection, r.metadata, r.ingestion, env.catalog, env.stored)
    && Unindexed(r.collection, r.reindex, r.cleanup, r.schedulers, r.builders, r.cleaners, r.activating, r.served)
    && Quiet(r.deletion, r.ingestion, r.ingesters, r.builders, env.stored)
    && Activating(r.activating, r.reindex, r.collection)
    && History(r.collection, r.served, r.activations, r.reindex, r.cleanup)
  }

  ghost predicate Located(r: Record) {
    && Tracking(r)
    && Ingested(r.ingestion, r.ingesters, r.points)
    && Swept(r.cleanup, r.cleaners, r.reindex, r.builders, r.points)
  }

  ghost predicate Deleted(r: Record, env: Env) {
    && Covered(r.deleters, r.points, r.cleanup, r.cleaners, r.reindex, env.stored)
    && Erased(r.deletion, r.points, r.hash, env.stored)
    && Kept(r.deletion, r.hash, env.stored)
  }

  ghost predicate Placement(r: Record, env: Env) {
    Located(r) && Deleted(r, env)
  }

  ghost predicate Base(r: Record, env: Env) {
    Rows(r, env) && Links(r, env) && Placement(r, env)
  }

  /** Once a deletion row exists, every collection that holds points stays tracked until they are gone. */
  ghost predicate Settled(r: Record) {
    r.deletion != [] ==> forall c :: Held(r.points, c) ==> Durable(r, c)
  }

  ghost predicate Inv(r: Record, env: Env) {
    Base(r, env) && Settled(r)
  }

  lemma FreshInv(key: Key, hash: Digest, catalog: map<Collection, Metadata>)
    ensures Inv(Fresh(key, hash), Env(true, catalog))
  {
  }
}

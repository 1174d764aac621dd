/** The latest job of a document: one batched query reduced in a loop against the ordered single-row query,
    and the lifecycle status both views derive from it. */
module LatestJobs {
  import opened Wrappers
  import opened DocumentRecord
  import opened Steps
  import opened Invariant
  import opened Catalogue

  /** A job row of either table; `status` is what the table's own jobs carry. */
  datatype Row<S> = Row(id: nat, documentId: nat, createdAt: int, status: S)

  /** `(a.created_at, a.id) > (b.created_at, b.id)`. */
  predicate Newer<S>(a: Row<S>, b: Row<S>) {
    a.createdAt > b.createdAt || (a.createdAt == b.createdAt && a.id > b.id)
  }

  /** The row ORDER BY created_at DESC, id DESC LIMIT 1 finds for the document. */
  ghost predicate IsLatest<S>(rows: seq<Row<S>>, documentId: nat, found: Option<Row<S>>) {
    match found
    case None => forall i :: 0 <= i < |rows| ==> rows[i].documentId != documentId
    case Some(job) =>
      && job in rows && job.documentId == documentId
      && forall i :: 0 <= i < |rows| && rows[i].documentId == documentId ==> !Newer(rows[i], job)
  }

  function Lookup<S>(latest: map<nat, Row<S>>, documentId: nat): Option<Row<S>> {
    if documentId in latest then Some(latest[documentId]) else None
  }

  /** The rows WHERE document_id IN (document_ids) returns, in whatever order `rows` has. */
  function Requested<S(!new)>(rows: seq<Row<S>>, documentIds: set<nat>): (r: seq<Row<S>>)
    ensures forall job :: job in r <==> job in rows && job.documentId in documentIds
  {
    if rows == [] then []
    else
      var rest := Requested(rows[..|rows| - 1], documentIds);
      assert rows == rows[..|rows| - 1] + [Last(rows)];
      if Last(rows).documentId in documentIds then rest + [Last(rows)] else rest
  }

  /** The reduction of both batched lookups. */
  method GetLatestJobsForDocuments<S(!new)>(rows: seq<Row<S>>, documentIds: set<nat>) returns (latest: map<nat, Row<S>>)
    ensures forall d :: d in documentIds ==> IsLatest(rows, d, Lookup(latest, d))
    ensures latest.Keys <= documentIds
    ensures forall d, i :: d in documentIds && 0 <= i < |rows| && rows[i].documentId == d ==>
              && d in latest && latest[d] in rows && latest[d].documentId == d
              && (rows[i].createdAt < latest[d].createdAt
                  || (rows[i].createdAt == latest[d].createdAt && rows[i].id <= latest[d].id))
  {
    latest := map[];
    if documentIds == {} {
      return;
    }
    var jobs := Requested(rows, documentIds);
    for i := 0 to |jobs|
      invariant latest.Keys <= documentIds
      invariant forall d :: d in documentIds ==> IsLatest(jobs[..i], d, Lookup(latest, d))
    {
      var job := jobs[i];
      StillLatest(jobs, i, latest, documentIds);
      if job.documentId !in latest || Newer(job, latest[job.documentId]) {
        latest := latest[job.documentId := job];
      }
    }
    assert jobs[..|jobs|] == jobs;
    forall d | d in documentIds ensures IsLatest(rows, d, Lookup(latest, d)) {
      LatestOfRequested(rows, documentIds, d, Lookup(latest, d));
    }
  }

  lemma StillLatest<S>(jobs: seq<Row<S>>, i: nat, latest: map<nat, Row<S>>, documentIds: set<nat>)
    requires i < |jobs| && jobs[i].documentId in documentIds
    requires forall d :: d in documentIds ==> IsLatest(jobs[..i], d, Lookup(latest, d))
    ensures var job := jobs[i];
            var next := if job.documentId !in latest || Newer(job, latest[job.documentId])
                        then latest[job.documentId := job] else latest;
            forall d :: d in documentIds ==> IsLatest(jobs[..i + 1], d, Lookup(next, d))
  {
    var job := jobs[i];
    var next := if job.documentId !in latest || Newer(job, latest[job.documentId]) then latest[job.documentId := job] else latest;
    assert jobs[..i + 1] == jobs[..i] + [job];
    forall d | d in documentIds ensures IsLatest(jobs[..i + 1], d, Lookup(next, d)) {
      assert IsLatest(jobs[..i], d, Lookup(latest, d));
    }
  }

  lemma LatestOfRequested<S(!new)>(rows: seq<Row<S>>, documentIds: set<nat>, d: nat, found: Option<Row<S>>)
    requires d in documentIds && IsLatest(Requested(rows, documentIds), d, found)
    ensures IsLatest(rows, d, found)
  {
    forall i | 0 <= i < |rows| && rows[i].documentId == d
      ensures found.Some? && !Newer(rows[i], found.value)
    {
      assert rows[i] in Requested(rows, documentIds);
    }
  }

  ghost predicate UniqueIds<S>(rows: seq<Row<S>>) {
    forall i, j :: 0 <= i < |rows| && 0 <= j < |rows| && rows[i].id == rows[j].id ==> rows[i] == rows[j]
  }

  /** Job ids being unique, the latest row does not depend on the order the database returns the rows in. */
  lemma LatestIsUnique<S(!new)>(rows: seq<Row<S>>, reordered: seq<Row<S>>, d: nat, a: Option<Row<S>>, b: Option<Row<S>>)
    requires UniqueIds(rows) && forall job :: job in rows <==> job in reordered
    requires IsLatest(rows, d, a) && IsLatest(reordered, d, b)
    ensures a == b
  {
    if a.Some? {
      assert a.value in reordered;
    }
    if b.Some? {
      assert b.value in rows;
    }
    if a.Some? && b.Some? {
      assert !Newer(a.value, b.value) && !Newer(b.value, a.value);
    }
  }

  // ----- the derived lifecycle status -----

  datatype Lifecycle = LifecycleUploaded | LifecyclePending | LifecycleProcessing | LifecycleFailed | LifecycleIndexed
    | LifecycleDeleting | LifecycleDeletionFailed | LifecycleDeleted

  function DeriveLifecycle(ingestion: Option<JobStatus>, deletion: Option<DeletionStatus>): Lifecycle {
    match deletion
    case Some(DeletionPending) => LifecycleDeleting
    case Some(DeletionProcessing) => LifecycleDeleting
    case Some(DeletionPartiallyFailed) => LifecycleDeletionFailed
    case Some(DeletionCompleted) => LifecycleDeleted
    case None =>
      match ingestion
      case None => LifecycleUploaded
      case Some(Pending) => LifecyclePending
      case Some(Processing) => LifecycleProcessing
      case Some(Failed) => LifecycleFailed
      case Some(Completed) => LifecycleIndexed
  }

  function StatusOf<S>(found: Option<Row<S>>): Option<S> {
    if found.Some? then Some(found.value.status) else None
  }

  /** What each status says about the two latest rows. */
  ghost predicate Fits(job: Option<Row<JobStatus>>, deleting: Option<Row<DeletionStatus>>, status: Lifecycle) {
    && (status == LifecycleDeleting <==>
          deleting.Some? && (deleting.value.status == DeletionPending || deleting.value.status == DeletionProcessing))
    && (status == LifecycleDeletionFailed <==> deleting.Some? && deleting.value.status == DeletionPartiallyFailed)
    && (status == LifecycleDeleted <==> deleting.Some? && deleting.value.status == DeletionCompleted)
    && (status == LifecycleUploaded <==> deleting.None? && job.None?)
    && (status == LifecyclePending <==> deleting.None? && job.Some? && job.value.status == Pending)
    && (status == LifecycleProcessing <==> deleting.None? && job.Some? && job.value.status == Processing)
    && (status == LifecycleFailed <==> deleting.None? && job.Some? && job.value.status == Failed)
    && (status == LifecycleIndexed <==> deleting.None? && job.Some? && job.value.status == Completed)
  }

  /** `status` fits the document's two latest rows. */
  ghost predicate Shows(ingestion: seq<Row<JobStatus>>, deletion: seq<Row<DeletionStatus>>, d: nat, status: Lifecycle) {
    exists job, deleting :: IsLatest(ingestion, d, job) && IsLatest(deletion, d, deleting) && Fits(job, deleting, status)
  }

  lemma DerivedStatusFits(job: Option<Row<JobStatus>>, deleting: Option<Row<DeletionStatus>>)
    ensures Fits(job, deleting, DeriveLifecycle(StatusOf(job), StatusOf(deleting)))
  {
  }

  /** The list view's status of every listed document. */
  method ListStatuses(documentIds: seq<nat>, ingestion: seq<Row<JobStatus>>, deletion: seq<Row<DeletionStatus>>)
    returns (statuses: seq<Lifecycle>)
    ensures |statuses| == |documentIds|
    ensures forall i :: 0 <= i < |documentIds| ==> Shows(ingestion, deletion, documentIds[i], statuses[i])
  {
    var listed := set d | d in documentIds;
    var latestJobs := GetLatestJobsForDocuments(ingestion, listed);
    var latestDeletions := GetLatestJobsForDocuments(deletion, listed);
    statuses := [];
    for i := 0 to |documentIds|
      invariant |statuses| == i
      invariant forall k :: 0 <= k < i ==>
                  statuses[k] == DeriveLifecycle(StatusOf(Lookup(latestJobs, documentIds[k])), StatusOf(Lookup(latestDeletions, documentIds[k])))
    {
      var d := documentIds[i];
      statuses := statuses + [DeriveLifecycle(StatusOf(Lookup(latestJobs, d)), StatusOf(Lookup(latestDeletions, d)))];
    }
    forall i | 0 <= i < |documentIds| ensures Shows(ingestion, deletion, documentIds[i], statuses[i]) {
      var d := documentIds[i];
      assert d in listed;
      assert IsLatest(ingestion, d, Lookup(latestJobs, d)) && IsLatest(deletion, d, Lookup(latestDeletions, d));
      DerivedStatusFits(Lookup(latestJobs, d), Lookup(latestDeletions, d));
    }
  }

  /** The list and the detail view of a document show the same status, in whatever order the list's queries
      return their rows. */
  lemma ViewsAgree(d: nat, ingestion: seq<Row<JobStatus>>, deletion: seq<Row<DeletionStatus>>,
                   ingestion': seq<Row<JobStatus>>, deletion': seq<Row<DeletionStatus>>,
                   status: Lifecycle, status': Lifecycle)
    requires UniqueIds(ingestion) && forall row :: row in ingestion <==> row in ingestion'
    requires UniqueIds(deletion) && forall row :: row in deletion <==> row in deletion'
    requires Shows(ingestion, deletion, d, status) && Shows(ingestion', deletion', d, status')
    ensures status == status'
  {
    var job, deleting :| IsLatest(ingestion, d, job) && IsLatest(deletion, d, deleting) && Fits(job, deleting, status);
    var job', deleting' :|
      IsLatest(ingestion', d, job') && IsLatest(deletion', d, deleting') && Fits(job', deleting', status');
    LatestIsUnique(ingestion, ingestion', d, job, job');
    LatestIsUnique(deletion, deletion', d, deleting, deleting');
  }

  // ----- what a status promises in a reachable state -----

  function LatestIngestionStatus(r: Record): Option<JobStatus> {
    if r.ingestion == [] then None else Some(Last(r.ingestion).status)
  }

  function LatestDeletionStatus(r: Record): Option<DeletionStatus> {
    if r.deletion == [] then None else Some(Last(r.deletion).status)
  }

  /** The ingestion row is read before the deletion row. Still DELETED means that a deletion has completed; once one
      has, nothing is left and no status before deletion ever shows again; and INDEXED means that the document was
      indexed at the first read and at the second serves from a registered collection with its object stored. */
  lemma StatusIsTruthful(states: seq<System>, steps: seq<Step>, i: nat, j: nat, d: nat)
    requires Run(states, steps) && i <= j < |states| && d < |states[i].docs|
    ensures d < |states[j].docs|
    ensures var first, second := states[i].docs[d], states[j].docs[d];
            var status := DeriveLifecycle(LatestIngestionStatus(first), LatestDeletionStatus(second));
            && first.ingestion != []
            && (status == LifecyclePending <==> second.deletion == [] && Last(first.ingestion).status == Pending)
            && (status == LifecycleProcessing <==> second.deletion == [] && Last(first.ingestion).status == Processing)
            && (status == LifecycleFailed <==> second.deletion == [] && Last(first.ingestion).status == Failed)
            && (status == LifecycleDeleting <==>
                  second.deletion != []
                  && (Last(second.deletion).status == DeletionPending || Last(second.deletion).status == DeletionProcessing))
            && (status == LifecycleDeletionFailed <==>
                  second.deletion != [] && Last(second.deletion).status == DeletionPartiallyFailed)
            && (status == LifecycleDeleted <==> second.deletion != [] && Last(second.deletion).status == DeletionCompleted)
            && (status == LifecycleDeleted ==> DeletionDone(second.deletion))
            && (DeletionDone(second.deletion) ==>
                  && (status == LifecycleDeleted || status == LifecycleDeleting || status == LifecycleDeletionFailed)
                  && second.key !in states[j].storage && second.hash == None && forall c :: PointsIn(second.points, c) == {})
            && (status == LifecycleIndexed <==> second.deletion == [] && first.collection.Some?)
            && (status == LifecycleIndexed ==>
                  second.key in states[j].storage && second.collection.Some? && second.collection.value in states[j].catalog)
            && status != LifecycleUploaded
  {
    DocsStay(states, steps, i, j, d);
    RunInv(states, steps, i, d);
    RunInv(states, steps, j, d);
    OneStatus(states[i].docs[d], EnvOf(states[i], d));
    OneStatus(states[j].docs[d], EnvOf(states[j], d));
  }

  lemma OneStatus(r: Record, env: Env)
    requires Inv(r, env)
    ensures r.deletion == [] ==> env.stored
    ensures LatestDeletionStatus(r) == Some(DeletionCompleted) ==> DeletionDone(r.deletion)
    ensures DeletionDone(r.deletion) ==> r.deletion != [] && !env.stored && r.hash == None && forall c :: PointsIn(r.points, c) == {}
    ensures r.ingestion != [] && (r.deletion == [] ==> (r.collection.Some? <==> LatestIngestionStatus(r) == Some(Completed)))
    ensures LatestIngestionStatus(r) == Some(Completed) ==> r.collection.Some?
    ensures r.collection.Some? ==> r.collection.value in env.catalog
  {
    assert Indexed(r.collection, r.metadata, r.ingestion, env.catalog, env.stored);
    if LatestDeletionStatus(r) == Some(DeletionCompleted) {
      assert r.deletion[|r.deletion| - 1].status == DeletionCompleted;
    }
    if DeletionDone(r.deletion) {
      forall c ensures PointsIn(r.points, c) == {} {
        assert !Held(r.points, c);
      }
    }
    assert Kept(r.deletion, r.hash, env.stored);
  }
}

/** The services and workers as they are written: statements that read one document's rows, change them in
    place and call the providers. Each method runs without interleaving. The request methods state their
    whole effect; the worker methods are also shown to be runs of the segments in `Steps`. */
module DocumentSessions {
  import opened Wrappers
  import opened DocumentRecord
  import opened Steps
  import opened Continuations

  /** The document after a whole activation of job `j`. */
  function AfterActivation(at: Scene, j: nat): Scene
    requires ActivationDecision(at.record, j, at.env.catalog) == Activated
  {
    var r, job := at.record, at.record.reindex[j];
    at.(record := r.(collection := Some(job.target), metadata := Some(at.env.catalog[job.target]),
                     cleanup := if job.source == job.target then r.cleanup
                                else r.cleanup + [CleanupJob(job.source, CleanupPending, 0)],
                     reindex := r.reindex[j := job.(activated := true)],
                     served := r.served + [job.target], activations := r.activations + [j]))
  }

  /** A whole activation is a run of its two segments. */
  lemma ActivationIsRun(at: Scene, j: nat)
    requires at.record.activating == None && j < |at.record.reindex| && at.record.deletion == []
    requires at.record.reindex[j].status == Completed && !at.record.reindex[j].activated
    requires at.record.collection == Some(at.record.reindex[j].source) && at.record.reindex[j].target in at.env.catalog
    ensures Reaches(at, AfterActivation(at, j), true)
  {
    var locked := Scene(at.record.(activating := Some(j)), at.env);
    Stay(at, true);
    Go(at, at, Cutover(BeginActivation(j)), locked, true);
    Go(at, locked, Cutover(CommitActivation), AfterActivation(at, j), true);
  }

  // ----- what one uninterrupted worker call leaves behind -----

  /** Deletes from `attempts` one after the other, skipping those whose delete raises. */
  function EraseAll(points: map<Collection, set<nat>>, attempts: seq<Collection>, faults: set<Collection>): map<Collection, set<nat>>
    decreases |attempts|
  {
    if attempts == [] then points
    else
      var before := EraseAll(points, attempts[..|attempts| - 1], faults);
      if Last(attempts) in faults then before else Erase(before, Last(attempts))
  }

  lemma {:induction false} EraseAllAt(points: map<Collection, set<nat>>, attempts: seq<Collection>, faults: set<Collection>, c: Collection)
    ensures PointsIn(EraseAll(points, attempts, faults), c) == if c in attempts && c !in faults then {} else PointsIn(points, c)
    decreases |attempts|
  {
    if attempts != [] {
      EraseAllAt(points, attempts[..|attempts| - 1], faults, c);
      assert attempts == attempts[..|attempts| - 1] + [Last(attempts)];
    }
  }

  predicate Dirty(attempts: seq<Collection>, faults: set<Collection>) {
    exists i :: 0 <= i < |attempts| && attempts[i] in faults
  }

  lemma FailuresAreDirty(attempts: seq<Collection>, succeeded: seq<bool>, faults: set<Collection>)
    requires |succeeded| == |attempts| && forall i :: 0 <= i < |attempts| ==> (succeeded[i] <==> attempts[i] !in faults)
    ensures Dirty(attempts, faults) <==> exists i :: 0 <= i < |succeeded| && !succeeded[i]
  {
    if Dirty(attempts, faults) {
      var i :| 0 <= i < |attempts| && attempts[i] in faults;
      assert !succeeded[i];
    }
  }

  /** The deletion worker's call for PENDING job `j`. */
  function AfterDeletionJob(at: Scene, j: nat, faults: set<Collection>, objectFails: bool): Scene
    requires j < |at.record.deletion|
  {
    var r, job, attempts := at.record, at.record.deletion[j], Attempts(at.record);
    var dirty := Dirty(attempts, faults);
    var done := !dirty && !objectFails;
    var resolved :=
      if dirty then job.(status := DeletionPartiallyFailed)
      else if objectFails then job.(status := DeletionPartiallyFailed, vectorsCleaned := true)
      else DeletionJob(DeletionCompleted, true, true);
    Scene(r.(points := EraseAll(r.points, attempts, faults), deletion := r.deletion[j := resolved],
             hash := if done then None else r.hash),
          at.env.(stored := at.env.stored && !done))
  }

  /** What the deletion worker's call comes to, collection by collection. */
  lemma DeletionJobAnswers(at: Scene, j: nat, faults: set<Collection>, objectFails: bool)
    requires j < |at.record.deletion|
    ensures Dirty(Attempts(at.record), faults) <==> exists c :: Tracked(at.record, c) && c in faults
    ensures forall c :: PointsIn(AfterDeletionJob(at, j, faults, objectFails).record.points, c) ==
                          if Tracked(at.record, c) && c !in faults then {} else PointsIn(at.record.points, c)
  {
    var attempts := Attempts(at.record);
    assert forall c :: c in attempts <==> Tracked(at.record, c);
    if c :| Tracked(at.record, c) && c in faults {
      var i :| 0 <= i < |attempts| && attempts[i] == c;
    }
    forall c ensures PointsIn(AfterDeletionJob(at, j, faults, objectFails).record.points, c) ==
                       if Tracked(at.record, c) && c !in faults then {} else PointsIn(at.record.points, c)
    {
      EraseAllAt(at.record.points, attempts, faults, c);
    }
  }

  /** The re-index worker's call for PENDING job `j`, embedding `count` chunks unless a provider fails. */
  function AfterBuildJob(at: Scene, j: nat, count: nat, fails: bool): Scene
    requires j < |at.record.reindex|
  {
    var r, job := at.record, at.record.reindex[j];
    if r.deletion != [] || job.target !in at.env.catalog || !at.env.stored || fails then
      at.(record := r.(reindex := r.reindex[j := job.(status := Failed)]))
    else
      at.(record := r.(reindex := r.reindex[j := job.(status := Completed)], points := Upsert(r.points, job.target, count)))
  }

  /** The ingestion worker's call for PENDING job `j` under the configuration `target`, `config`. */
  function AfterIngestionJob(at: Scene, j: nat, target: Collection, config: Metadata, count: nat, fails: bool): Scene
    requires j < |at.record.ingestion|
  {
    var r, job := at.record, at.record.ingestion[j];
    if !at.env.stored || fails then at.(record := r.(ingestion := r.ingestion[j := job.(status := Failed)]))
    else
      Scene(r.(ingestion := r.ingestion[j := job.(status := Completed)], points := Upsert(r.points, target, count),
               collection := Some(target), metadata := Some(config), served := r.served + [target]),
            at.env.(catalog := EnsureRow(at.env.catalog, target, config)))
  }

  /** A scheduled build of `target`: its registry row and one PENDING job that pins the current source. */
  function AfterScheduling(at: Scene, target: Collection, config: Metadata): Scene
    requires at.record.collection.Some?
  {
    Scene(at.record.(reindex := at.record.reindex + [ReindexJob(at.record.collection.value, target, Pending, false)]),
          at.env.(catalog := EnsureRow(at.env.catalog, target, config)))
  }

  /** One retry of cleanup row `k`; `fails` says whether the delete raises. */
  function AfterCleanup(at: Scene, k: nat, fails: bool): Scene
    requires k < |at.record.cleanup|
  {
    var r, row := at.record, at.record.cleanup[k];
    var ok := r.collection != Some(row.collection) && !fails;
    at.(record := r.(points := if ok then Erase(r.points, row.collection) else r.points,
                     cleanup := r.cleanup[k := CleanupJob(row.collection, if ok then CleanupCompleted else CleanupFailed, row.attempts + 1)]))
  }

  // ----- what the requests look at -----

  /** What the statements of a scheduling request find: its three checks, its insert, and the look for the winner
      after a refused insert. */
  datatype ScheduleReads = ScheduleReads(builds: seq<ReindexJob>, ingestion: seq<IngestionJob>, deletion: seq<DeletionJob>,
                                         atInsert: seq<ReindexJob>, afterwards: seq<ReindexJob>)

  datatype SchedulingOutcome =
    | IneligibleNeverIndexed | AlreadyCurrent | ReindexAlreadyActive | IngestionIsRunning
    | DeletionIsActive | DeletionIncomplete | DocumentDeleted | ReindexCreated | MissingReindexWinner

  class DocumentSession {
    var hash: Option<Digest>
    var collection: Option<Collection>
    var metadata: Option<Metadata>
    var ingestion: seq<IngestionJob>
    var reindex: seq<ReindexJob>
    var cleanup: seq<CleanupJob>
    var deletion: seq<DeletionJob>
    var points: map<Collection, set<nat>>
    var stored: bool
    var catalog: map<Collection, Metadata>
    var served: seq<Collection>
    var activations: seq<nat>
    /** Whoever else is in flight on the document; of this record only the in-flight fields matter. */
    const others: Record

    ghost function State(): Record
      reads this
    {
      others.(hash := hash, collection := collection, metadata := metadata, ingestion := ingestion, reindex := reindex,
              cleanup := cleanup, deletion := deletion, points := points, served := served, activations := activations)
    }

    ghost function View(): Scene
      reads this
    {
      Scene(State(), Env(stored, catalog))
    }

    constructor (r: Record, env: Env)
      ensures View() == Scene(r, env)
    {
      hash, collection, metadata := r.hash, r.collection, r.metadata;
      ingestion, reindex, cleanup, deletion := r.ingestion, r.reindex, r.cleanup, r.deletion;
      points, served, activations := r.points, r.served, r.activations;
      stored, catalog := env.stored, env.catalog;
      others := r;
    }

    // ----- requests: one decision, at most one commit -----

    /** request_document_deletion. Its three reads are three statements: `deletion` is what the first finds and
        locks, `ingestionRead` and `reindexRead` what the others find. `rivals` are the deletion rows other requests
        commit before this one does; a row of theirs that is still active makes the unique index refuse it. */
    method RequestDocumentDeletion(ingestionRead: seq<IngestionJob>, reindexRead: seq<ReindexJob>, rivals: seq<DeletionJob>)
      returns (outcome: DeletionOutcome)
      modifies this`deletion
      ensures outcome == AlreadyDeleted <==> old(deletion) != [] && Last(old(deletion)).status == DeletionCompleted
      ensures var open := old(deletion) == [] || Last(old(deletion)).status == DeletionPartiallyFailed;
              var passed := open && !IngestionActive(ingestionRead) && !ReindexActive(reindexRead);
              && (outcome == IngestionIsActive <==> open && IngestionActive(ingestionRead))
              && (outcome == ReindexIsActive <==> open && !IngestionActive(ingestionRead) && ReindexActive(reindexRead))
              && (outcome == DeletionCreated <==> passed && !DeletionActive(old(deletion) + rivals))
              && deletion == (if outcome == DeletionCreated then old(deletion) + rivals + [DeletionJob(DeletionPending, false, false)]
                              else if passed then old(deletion) + rivals else old(deletion))
              && (passed ==> deletion == WithDeletion(old(deletion) + rivals))
      ensures ingestionRead == ingestion && reindexRead == reindex && DeletionDecision(old(State())) != DeletionCreated ==>
                outcome == DeletionDecision(old(State()))
    {
      if deletion != [] {
        var latest := Last(deletion);
        if latest.status == DeletionCompleted {
          return AlreadyDeleted;
        }
        if ActiveDeletion(latest.status) {
          return AlreadyActive;
        }
      }
      if IngestionActive(ingestionRead) {
        return IngestionIsActive;
      }
      if ReindexActive(reindexRead) {
        return ReindexIsActive;
      }
      deletion := deletion + rivals;
      if DeletionActive(deletion) {
        return AlreadyActive;
      }
      deletion := deletion + [PENDING_DELETION];
      return DeletionCreated;
    }

    /** retry_ingestion. It looks at the deletion rows first and never again: `late` are those committed after that.
        `locked` are the job rows its second read finds and locks, `rivals` those others insert meanwhile; one of
        them still active makes the unique index refuse the whole commit, so a stale row's flip is rolled back. */
    method RetryIngestion(stale: bool, late: seq<DeletionJob>, locked: seq<IngestionJob>, rivals: seq<IngestionJob>)
      returns (outcome: RetryOutcome)
      modifies this`ingestion, this`deletion
      ensures outcome == RetryDeletionActive <==> old(deletion) != []
      ensures outcome == RetryAlreadyCompleted <==>
                old(deletion) == [] && locked != [] && Last(locked).status == Completed
      ensures var flip := locked != [] && Last(locked).status == Processing;
              var retryable := locked == [] || Last(locked).status == Failed || (flip && stale);
              var flipped := if flip then locked[|locked| - 1 := IngestionJob(Failed, true)] else locked;
              && (outcome == RetryCreated <==> old(deletion) == [] && retryable && !AnyActive(flipped + rivals))
              && ingestion == (if old(deletion) != [] then old(ingestion)
                               else if outcome == RetryCreated then flipped + rivals + [IngestionJob(Pending, false)]
                               else if retryable then locked + rivals
                               else locked)
      ensures deletion == if old(deletion) != [] then old(deletion) else late
    {
      if deletion != [] {
        return RetryDeletionActive;
      }
      deletion := late;
      ingestion := locked;
      var flipped := ingestion;
      if ingestion != [] {
        var latest := Last(ingestion);
        if latest.status == Completed {
          return RetryAlreadyCompleted;
        }
        if latest.status == Pending {
          return RetryAlreadyActive;
        }
        if latest.status == Processing {
          if !stale {
            return RetryAlreadyActive;
          }
          flipped := ingestion[|ingestion| - 1 := IngestionJob(Failed, true)];
        }
      }
      if AnyActive(flipped + rivals) {
        ingestion := ingestion + rivals;
        return RetryAlreadyActive;
      }
      ingestion := flipped + rivals + [PENDING_INGESTION];
      return RetryCreated;
    }

    /** schedule_reindex against `target`, in the documented order of its checks, each of which is a statement of
        its own and finds what `found` says. An active row at its insert makes the unique index refuse it; then it
        looks for the winner among the rows there are by that time. The registry row is committed before. */
    method ScheduleReindex(target: Collection, config: Metadata, found: ScheduleReads) returns (outcome: SchedulingOutcome)
      modifies this`reindex, this`catalog
      ensures outcome == IneligibleNeverIndexed <==> collection.None?
      ensures outcome == AlreadyCurrent <==> collection == Some(target)
      ensures var elsewhere := collection.Some? && collection != Some(target);
              var buildable := elsewhere && !ReindexActive(found.builds) && !IngestionActive(found.ingestion);
              var passed := buildable && found.deletion == [];
              && (outcome == IngestionIsRunning <==>
                    elsewhere && !ReindexActive(found.builds) && IngestionActive(found.ingestion))
              && (outcome == DeletionIsActive <==>
                    buildable && found.deletion != []
                    && (Last(found.deletion).status == DeletionPending || Last(found.deletion).status == DeletionProcessing))
              && (outcome == DeletionIncomplete <==>
                    buildable && found.deletion != [] && Last(found.deletion).status == DeletionPartiallyFailed)
              && (outcome == DocumentDeleted <==>
                    buildable && found.deletion != [] && Last(found.deletion).status == DeletionCompleted)
              && (outcome == ReindexCreated <==> passed && !ReindexActive(found.atInsert))
              && (outcome == MissingReindexWinner <==> passed && ReindexActive(found.atInsert) && !ReindexActive(found.afterwards))
              && reindex == (if outcome == ReindexCreated then found.atInsert + [ReindexJob(collection.value, target, Pending, false)]
                             else if passed then found.afterwards else old(reindex))
              && catalog == (if passed && target !in old(catalog) then old(catalog)[target := config] else old(catalog))
      ensures found.atInsert == old(reindex) && outcome == ReindexCreated ==>
                View() == AfterScheduling(old(View()), target, config)
    {
      if collection.None? {
        return IneligibleNeverIndexed;
      }
      var source := collection.value;
      if source == target {
        return AlreadyCurrent;
      }
      if ReindexActive(found.builds) {
        return ReindexAlreadyActive;
      }
      if IngestionActive(found.ingestion) {
        return IngestionIsRunning;
      }
      if found.deletion != [] {
        var latest := Last(found.deletion);
        if ActiveDeletion(latest.status) {
          return DeletionIsActive;
        }
        if latest.status == DeletionPartiallyFailed {
          return DeletionIncomplete;
        }
        return DocumentDeleted;
      }
      EnsureActiveCollection(target, config);
      if ReindexActive(found.atInsert) {
        reindex := found.afterwards;
        return if ReindexActive(reindex) then ReindexAlreadyActive else MissingReindexWinner;
      }
      reindex := found.atInsert + [ReindexJob(source, target, Pending, false)];
      return ReindexCreated;
    }

    /** The preconditions of an activation, in their documented order. */
    method CheckActivation(j: nat) returns (outcome: ActivationOutcome)
      ensures outcome == JobNotFound <==> j >= |reindex|
      ensures outcome == AlreadyActivated <==> j < |reindex| && reindex[j].activated
      ensures outcome == BlockedByDeletion <==>
                j < |reindex| && !reindex[j].activated && reindex[j].status == Completed && deletion != []
      ensures outcome == SourceChanged <==>
                j < |reindex| && !reindex[j].activated && reindex[j].status == Completed && deletion == []
                && collection != Some(reindex[j].source)
      ensures outcome == Activated <==>
                j < |reindex| && !reindex[j].activated && reindex[j].status == Completed && deletion == []
                && collection == Some(reindex[j].source) && reindex[j].target in catalog
      ensures outcome == ActivationDecision(State(), j, catalog)
    {
      if j >= |reindex| {
        return JobNotFound;
      }
      if reindex[j].activated {
        return AlreadyActivated;
      }
      if reindex[j].status != Completed {
        return NotReady;
      }
      if deletion != [] {
        return BlockedByDeletion;
      }
      if collection != Some(reindex[j].source) {
        return SourceChanged;
      }
      return if reindex[j].target in catalog then Activated else NotReady;
    }

    /** The atomic cutover: serving columns, cleanup obligation and activation mark in one commit. */
    method ActivateReindexedDocument(j: nat) returns (outcome: ActivationOutcome)
      modifies this`collection, this`metadata, this`cleanup, this`reindex, this`served, this`activations
      ensures outcome == ActivationDecision(old(State()), j, old(catalog))
      ensures outcome == Activated <==>
                j < |old(reindex)| && !old(reindex)[j].activated && old(reindex)[j].status == Completed && deletion == []
                && old(collection) == Some(old(reindex)[j].source) && old(reindex)[j].target in catalog
      ensures outcome == Activated ==>
                var job := old(reindex)[j];
                && collection == Some(job.target) && metadata == Some(catalog[job.target])
                && reindex == old(reindex)[j := ReindexJob(job.source, job.target, job.status, true)]
                && cleanup == old(cleanup) + (if job.source != job.target then [CleanupJob(job.source, CleanupPending, 0)] else [])
                && served == old(served) + [job.target] && activations == old(activations) + [j]
      ensures View() == if outcome == Activated then AfterActivation(old(View()), j) else old(View())
    {
      outcome := CheckActivation(j);
      if outcome == Activated {
        var job := reindex[j];
        collection := Some(job.target);
        metadata := Some(catalog[job.target]);
        if job.source != job.target {
          cleanup := cleanup + [CleanupJob(job.source, CleanupPending, 0)];
        }
        reindex := reindex[j := job.(activated := true)];
        served := served + [job.target];
        activations := activations + [j];
      }
    }

    // ----- providers and workers -----

    /** One vector-store delete; it raises, without effect, for the collections in `faults`. */
    method EraseFrom(c: Collection, faults: set<Collection>) returns (ok: bool)
      modifies this`points
      ensures ok <==> c !in faults
      ensures points == if ok then Erase(old(points), c) else old(points)
    {
      ok := c !in faults;
      if ok {
        points := Erase(points, c);
      }
    }

    /** retry_cleanup_job for row `k`: refused on the collection being served, otherwise delete and mark. */
    method RetryCleanupJob(k: nat, faults: set<Collection>) returns (ok: bool)
      requires k < |cleanup|
      modifies this`points, this`cleanup
      ensures ok <==> collection != Some(old(cleanup)[k].collection) && old(cleanup)[k].collection !in faults
      ensures View() == AfterCleanup(old(View()), k, old(cleanup)[k].collection in faults)
      ensures var row := old(cleanup)[k];
              && cleanup == old(cleanup)[k := CleanupJob(row.collection, if ok then CleanupCompleted else CleanupFailed, row.attempts + 1)]
              && (forall c :: PointsIn(points, c) == if ok && c == row.collection then {} else PointsIn(old(points), c))
    {
      var job := cleanup[k];
      if collection == Some(job.collection) {
        cleanup := cleanup[k := job.(status := CleanupFailed, attempts := job.attempts + 1)];
        return false;
      }
      ok := EraseFrom(job.collection, faults);
      if !ok {
        cleanup := cleanup[k := job.(status := CleanupFailed, attempts := job.attempts + 1)];
        return false;
      }
      cleanup := cleanup[k := job.(status := CleanupCompleted, attempts := job.attempts + 1)];
    }

    /** process_next_vector_cleanup_job: the oldest open row, whether PENDING or FAILED, is retried once. */
    method ProcessNextCleanupJob(faults: set<Collection>) returns (claimed: Option<nat>)
      modifies this`points, this`cleanup
      ensures claimed.None? ==> View() == old(View()) && forall k :: 0 <= k < |cleanup| ==> cleanup[k].status == CleanupCompleted
      ensures claimed.Some? ==>
                && claimed.value < |old(cleanup)| && old(cleanup)[claimed.value].status != CleanupCompleted
                && (forall k :: 0 <= k < claimed.value ==> old(cleanup)[k].status == CleanupCompleted)
                && View() == AfterCleanup(old(View()), claimed.value, old(cleanup)[claimed.value].collection in faults)
      ensures claimed.Some? ==>
                var row := old(cleanup)[claimed.value];
                var ok := collection != Some(row.collection) && row.collection !in faults;
                && cleanup == old(cleanup)[claimed.value :=
                     CleanupJob(row.collection, if ok then CleanupCompleted else CleanupFailed, row.attempts + 1)]
                && (forall c :: PointsIn(points, c) == if ok && c == row.collection then {} else PointsIn(old(points), c))
    {
      claimed := OldestPending(cleanup, OpenRow);
      if claimed.Some? {
        var ok := RetryCleanupJob(claimed.value, faults);
      }
    }

    /** The collections to attempt, resolved from the three reads. */
    method ResolveAttempts() returns (attempts: seq<Collection>)
      ensures attempts == Attempts(State())
      ensures Distinct(attempts)
      ensures forall c :: c in attempts <==> Tracked(State(), c)
    {
      attempts := [];
      if collection.Some? {
        attempts := attempts + [collection.value];
      }
      assert attempts == Current(collection);
      attempts := AppendMissing(attempts, OpenCleanupCollections(cleanup));
      attempts := AppendMissing(attempts, CompletedTargets(reindex));
    }

    static method AppendMissing(initial: seq<Collection>, more: seq<Collection>) returns (attempts: seq<Collection>)
      ensures attempts == AppendNew(initial, more)
    {
      attempts := initial;
      for i := 0 to |more|
        invariant AppendNew(attempts, more[i..]) == AppendNew(initial, more)
      {
        assert more[i..] == [more[i]] + more[i + 1..];
        if more[i] !in attempts {
          attempts := attempts + [more[i]];
        }
      }
    }

    /** delete_all_tracked_document_vectors: every resolved collection is attempted, whatever the others do. */
    method DeleteAllTrackedVectors(faults: set<Collection>) returns (attempted: seq<Collection>, succeeded: seq<bool>)
      modifies this`points
      ensures attempted == Attempts(old(State()))
      ensures |succeeded| == |attempted| && forall i :: 0 <= i < |attempted| ==> (succeeded[i] <==> attempted[i] !in faults)
      ensures points == EraseAll(old(points), attempted, faults)
    {
      attempted := ResolveAttempts();
      succeeded := [];
      for i := 0 to |attempted|
        invariant |succeeded| == i && forall k :: 0 <= k < i ==> (succeeded[k] <==> attempted[k] !in faults)
        invariant points == EraseAll(old(points), attempted[..i], faults)
      {
        assert attempted[..i + 1][..i] == attempted[..i];
        var ok := EraseFrom(attempted[i], faults);
        succeeded := succeeded + [ok];
      }
      assert attempted[..|attempted|] == attempted;
    }

    /** The oldest PENDING row of a job table, as the three workers claim it. */
    static method OldestPending<T>(rows: seq<T>, pending: T -> bool) returns (j: Option<nat>)
      ensures j.None? ==> forall k :: 0 <= k < |rows| ==> !pending(rows[k])
      ensures j.Some? ==> j.value < |rows| && pending(rows[j.value]) && forall k :: 0 <= k < j.value ==> !pending(rows[k])
    {
      for i := 0 to |rows|
        invariant forall k :: 0 <= k < i ==> !pending(rows[k])
      {
        if pending(rows[i]) {
          return Some(i);
        }
      }
      return None;
    }

    /** DocumentDeletionWorker.process_next_job: vectors strictly before the object, completion releases the hash.
        The job completes exactly when no tracked collection and not the object refused its delete. */
    method ProcessNextDeletionJob(faults: set<Collection>, objectFails: bool) returns (claimed: Option<nat>)
      modifies this`deletion, this`points, this`stored, this`hash
      ensures claimed.None? ==> View() == old(View()) && forall k :: 0 <= k < |deletion| ==> deletion[k].status != DeletionPending
      ensures claimed.Some? ==>
                && claimed.value < |old(deletion)| && old(deletion)[claimed.value].status == DeletionPending
                && (forall k :: 0 <= k < claimed.value ==> old(deletion)[k].status != DeletionPending)
                && View() == AfterDeletionJob(old(View()), claimed.value, faults, objectFails)
      ensures claimed.Some? ==>
                var j, clean := claimed.value, forall c :: Tracked(old(State()), c) ==> c !in faults;
                && j < |old(deletion)| == |deletion| && deletion == old(deletion)[j := deletion[j]]
                && (deletion[j].status == DeletionCompleted <==> clean && !objectFails)
                && (deletion[j].status == DeletionPartiallyFailed <==> !clean || objectFails)
                && (clean && !objectFails ==>
                      deletion[j].vectorsCleaned && deletion[j].objectCleaned && !stored && hash == None)
                && (!clean || objectFails ==>
                      && deletion[j].vectorsCleaned == (clean || old(deletion)[j].vectorsCleaned)
                      && deletion[j].objectCleaned == old(deletion)[j].objectCleaned
                      && stored == old(stored) && hash == old(hash))
                && (forall c :: PointsIn(points, c) ==
                                  if Tracked(old(State()), c) && c !in faults then {} else PointsIn(old(points), c))
    {
      claimed := OldestPending(deletion, (job: DeletionJob) => job.status == DeletionPending);
      if claimed.Some? {
        DeletionJobAnswers(View(), claimed.value, faults, objectFails);
        ExecuteDeletion(claimed.value, faults, objectFails);
      }
    }

    method ExecuteDeletion(j: nat, faults: set<Collection>, objectFails: bool)
      requires j < |deletion|
      modifies this`deletion, this`points, this`stored, this`hash
      ensures View() == AfterDeletionJob(old(View()), j, faults, objectFails)
    {
      ghost var at := View();
      deletion := deletion[j := deletion[j].(status := DeletionProcessing)];
      var clean := DeleteVectors(j, faults);
      if clean {
        DeleteObject(j, objectFails);
      }
      assert deletion == AfterDeletionJob(at, j, faults, objectFails).record.deletion;
    }

    /** The first half: every tracked collection, and the outcome in the job's row. */
    method DeleteVectors(j: nat, faults: set<Collection>) returns (clean: bool)
      requires j < |deletion|
      modifies this`deletion, this`points
      ensures clean <==> !Dirty(Attempts(old(State())), faults)
      ensures deletion == old(deletion)[j := if clean then old(deletion)[j].(vectorsCleaned := true)
                                             else old(deletion)[j].(status := DeletionPartiallyFailed)]
      ensures points == EraseAll(old(points), Attempts(old(State())), faults)
    {
      var attempted, succeeded := DeleteAllTrackedVectors(faults);
      FailuresAreDirty(attempted, succeeded, faults);
      clean := !exists i :: 0 <= i < |succeeded| && !succeeded[i];
      deletion := deletion[j := if clean then deletion[j].(vectorsCleaned := true)
                                else deletion[j].(status := DeletionPartiallyFailed)];
    }

    /** The second half: the object, and with it completion and the release of the hash in one commit. */
    method DeleteObject(j: nat, objectFails: bool)
      requires j < |deletion|
      modifies this`deletion, this`stored, this`hash
      ensures deletion == old(deletion)[j := if objectFails then old(deletion)[j].(status := DeletionPartiallyFailed)
                                             else old(deletion)[j].(status := DeletionCompleted, objectCleaned := true)]
      ensures stored == (old(stored) && objectFails) && hash == if objectFails then old(hash) else None
    {
      if objectFails {
        deletion := deletion[j := deletion[j].(status := DeletionPartiallyFailed)];
      } else {
        stored := false;
        deletion := deletion[j := deletion[j].(status := DeletionCompleted, objectCleaned := true)];
        hash := None;
      }
    }

    /** ReindexWorker.process_next_job: re-check the deletion state, build, resolve. It never activates. */
    method ProcessNextReindexJob(count: nat, fails: bool) returns (claimed: Option<nat>)
      requires count >= 1
      modifies this`reindex, this`points
      ensures claimed.None? ==> View() == old(View()) && forall k :: 0 <= k < |reindex| ==> reindex[k].status != Pending
      ensures claimed.Some? ==>
                && claimed.value < |old(reindex)| && old(reindex)[claimed.value].status == Pending
                && (forall k :: 0 <= k < claimed.value ==> old(reindex)[k].status != Pending)
                && View() == AfterBuildJob(old(View()), claimed.value, count, fails)
      ensures claimed.Some? ==>
                var j, job := claimed.value, old(reindex)[claimed.value];
                var built := deletion == [] && job.target in catalog && stored && !fails;
                && reindex == old(reindex)[j := ReindexJob(job.source, job.target, if built then Completed else Failed, job.activated)]
                && (!built ==> points == old(points))
                && (built ==>
                      && (forall i: nat :: i in PointsIn(points, job.target) <==> i in PointsIn(old(points), job.target) || i < count)
                      && (forall c :: c != job.target ==> PointsIn(points, c) == PointsIn(old(points), c)))
    {
      claimed := OldestPending(reindex, (job: ReindexJob) => job.status == Pending);
      if claimed.Some? {
        var j := claimed.value;
        reindex := reindex[j := reindex[j].(status := Processing)];
        if deletion != [] || reindex[j].target !in catalog || !stored || fails {
          reindex := reindex[j := reindex[j].(status := Failed)];
        } else {
          points := Upsert(points, reindex[j].target, count);
          reindex := reindex[j := reindex[j].(status := Completed)];
        }
      }
    }

    /** IngestionWorker.process_next_job: the serving columns and COMPLETED are one commit. */
    method ProcessNextIngestionJob(target: Collection, config: Metadata, count: nat, fails: bool) returns (claimed: Option<nat>)
      requires count >= 1
      modifies this`ingestion, this`points, this`collection, this`metadata, this`served, this`catalog
      ensures claimed.None? ==> View() == old(View()) && forall k :: 0 <= k < |ingestion| ==> ingestion[k].status != Pending
      ensures claimed.Some? ==>
                && claimed.value < |old(ingestion)| && old(ingestion)[claimed.value].status == Pending
                && (forall k :: 0 <= k < claimed.value ==> old(ingestion)[k].status != Pending)
                && View() == AfterIngestionJob(old(View()), claimed.value, target, config, count, fails)
      ensures claimed.Some? ==>
                var j, job := claimed.value, old(ingestion)[claimed.value];
                && ingestion == old(ingestion)[j := IngestionJob(if stored && !fails then Completed else Failed, job.recovered)]
                && (!stored || fails ==>
                      && points == old(points) && collection == old(collection) && metadata == old(metadata)
                      && served == old(served) && catalog == old(catalog))
                && (stored && !fails ==>
                      && collection == Some(target) && metadata == Some(config) && served == old(served) + [target]
                      && catalog == (if target in old(catalog) then old(catalog) else old(catalog)[target := config])
                      && (forall i: nat :: i in PointsIn(points, target) <==> i in PointsIn(old(points), target) || i < count)
                      && (forall c :: c != target ==> PointsIn(points, c) == PointsIn(old(points), c)))
    {
      claimed := OldestPending(ingestion, (job: IngestionJob) => job.status == Pending);
      if claimed.Some? {
        ExecuteIngestion(claimed.value, target, config, count, fails);
      }
    }

    method ExecuteIngestion(j: nat, target: Collection, config: Metadata, count: nat, fails: bool)
      requires j < |ingestion| && count >= 1
      modifies this`ingestion, this`points, this`collection, this`metadata, this`served, this`catalog
      ensures View() == AfterIngestionJob(old(View()), j, target, config, count, fails)
    {
      ghost var at := View();
      ingestion := ingestion[j := ingestion[j].(status := Processing)];
      if !stored || fails {
        ingestion := ingestion[j := ingestion[j].(status := Failed)];
      } else {
        EnsureActiveCollection(target, config);
        points := Upsert(points, target, count);
        MarkDocumentIndexed(target, config);
        ingestion := ingestion[j := ingestion[j].(status := Completed)];
      }
      assert ingestion == AfterIngestionJob(at, j, target, config, count, fails).record.ingestion;
    }

    method EnsureActiveCollection(target: Collection, config: Metadata)
      modifies this`catalog
      ensures catalog.Keys == old(catalog).Keys + {target}
      ensures forall c :: c in old(catalog) ==> catalog[c] == old(catalog)[c]
      ensures target !in old(catalog) ==> catalog[target] == config
      ensures catalog == EnsureRow(old(catalog), target, config)
    {
      if target !in catalog {
        catalog := catalog[target := config];
      }
    }

    method MarkDocumentIndexed(target: Collection, config: Metadata)
      modifies this`collection, this`metadata, this`served
      ensures collection == Some(target) && metadata == Some(config) && served == old(served) + [target]
    {
      collection, metadata := Some(target), Some(config);
      served := served + [target];
    }
  }
}

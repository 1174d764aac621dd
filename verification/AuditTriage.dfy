/** Which triage bucket an audited document falls into, read off its rows and the two probes. */
module AuditTriage {
  import opened Wrappers
  import opened DocumentRecord
  import opened Invariant
  import opened Catalogue
  import opened Audit
  import opened AuditBatch

  /** Something the document needs is missing. */
  predicate Broken(r: Record, storage: StorageProbe, vectors: VectorProbe) {
    || (r.ingestion != [] && Last(r.ingestion).status == Completed && (r.collection.None? || r.metadata.None?))
    || ((r.deletion == [] || Last(r.deletion).status != DeletionCompleted)
        && (storage == ObjectSeen(false) || (r.collection.Some? && (vectors == NoCollection || vectors == Counted(0)))))
  }

  /** Somebody should look at it: an unfinished deletion, a stale ingestion, a cleanup nobody has done, or a
      provider that could not be asked. */
  predicate Noteworthy(r: Record, stale: bool, storage: StorageProbe, vectors: VectorProbe) {
    || (r.deletion != [] && Last(r.deletion).status != DeletionCompleted)
    || (r.ingestion != [] && Last(r.ingestion).status == Processing && stale)
    || (exists k :: 0 <= k < |r.cleanup| && r.cleanup[k].status != CleanupCompleted)
    || ((r.deletion == [] || Last(r.deletion).status != DeletionCompleted)
        && (storage == StorageUnavailable || (r.collection.Some? && (vectors == SizeUnavailable || vectors == CountUnavailable))))
  }

  /** An ingestion waits or runs, or a finished build waits for its activation. */
  predicate Underway(r: Record) {
    || (r.ingestion != [] && (Last(r.ingestion).status == Pending || Last(r.ingestion).status == Processing))
    || (r.reindex != [] && Last(r.reindex).status == Completed && !Last(r.reindex).activated)
  }

  /** What an audit returned about a document that exists. */
  ghost predicate Audited(r: Record, stale: bool, storage: StorageProbe, vectors: VectorProbe,
                          overall: OverallStatus, findings: seq<Finding>) {
    && (forall code :: Mentions(findings, code) <==> Means(r, stale, storage, vectors, code))
    && (forall i :: 0 <= i < |findings| ==> Graded(findings[i]))
    && overall == if HasError(findings) then Inconsistent else Consistent
  }

  const ERRORS := {DocumentMissing, ObjectMissing, ActiveCollectionMissing, ActiveVectorsMissing, IndexMetadataIncomplete}
  const PROGRESS := {IngestionInProgress, ReindexTargetBuiltNotActivated}

  lemma ErrorIsMentioned(findings: seq<Finding>)
    requires forall i :: 0 <= i < |findings| ==> Graded(findings[i])
    ensures HasError(findings) <==> exists code :: code in ERRORS && Mentions(findings, code)
  {
    if HasError(findings) {
      var i :| 0 <= i < |findings| && findings[i].severity == Error;
      assert Mentions(findings, findings[i].code);
    }
  }

  lemma InfoIsMentioned(findings: seq<Finding>)
    requires forall i :: 0 <= i < |findings| ==> Graded(findings[i])
    ensures AllInfo(findings) <==> forall code :: Mentions(findings, code) ==> code in PROGRESS
    ensures findings == [] <==> forall code :: !Mentions(findings, code)
  {
    forall i | 0 <= i < |findings| ensures Mentions(findings, findings[i].code) {
    }
    if findings != [] {
      assert Mentions(findings, findings[0].code);
    }
  }

  lemma BrokenIsMeant(r: Record, stale: bool, storage: StorageProbe, vectors: VectorProbe)
    ensures Broken(r, storage, vectors) <==> exists code :: code in ERRORS && Means(r, stale, storage, vectors, code)
  {
    if Broken(r, storage, vectors) {
      assert Means(r, stale, storage, vectors, ObjectMissing) || Means(r, stale, storage, vectors, ActiveCollectionMissing)
        || Means(r, stale, storage, vectors, ActiveVectorsMissing) || Means(r, stale, storage, vectors, IndexMetadataIncomplete);
    }
  }

  lemma MeansNoteworthy(r: Record, stale: bool, storage: StorageProbe, vectors: VectorProbe, code: Code)
    requires code !in ERRORS && code !in PROGRESS && Means(r, stale, storage, vectors, code)
    ensures Noteworthy(r, stale, storage, vectors)
  {
  }

  lemma NoteworthyMeans(r: Record, stale: bool, storage: StorageProbe, vectors: VectorProbe) returns (code: Code)
    requires Noteworthy(r, stale, storage, vectors)
    ensures code !in ERRORS && code !in PROGRESS && Means(r, stale, storage, vectors, code)
  {
    if r.deletion != [] && Last(r.deletion).status != DeletionCompleted {
      code := match Last(r.deletion).status
        case DeletionPending => DeletionIsPending
        case DeletionProcessing => DeletionIsProcessing
        case _ => DeletionHasPartiallyFailed;
    } else if r.ingestion != [] && Last(r.ingestion).status == Processing && stale {
      code := StaleIngestionJob;
    } else if k :| 0 <= k < |r.cleanup| && r.cleanup[k].status != CleanupCompleted {
      code := if LatestBuilt(r, true) && r.cleanup[k].collection == Last(r.reindex).source then ReindexCleanupPending
              else VectorCleanupIncomplete;
    } else {
      code := if storage == StorageUnavailable then StorageInspectionUnavailable else VectorInspectionUnavailable;
    }
  }

  lemma UnderwayIsMeant(r: Record, stale: bool, storage: StorageProbe, vectors: VectorProbe)
    requires !Noteworthy(r, stale, storage, vectors)
    ensures Underway(r) <==> exists code :: code in PROGRESS && Means(r, stale, storage, vectors, code)
  {
    if Underway(r) {
      assert Means(r, stale, storage, vectors, IngestionInProgress) || Means(r, stale, storage, vectors, ReindexTargetBuiltNotActivated);
    }
  }

  /** The bucket of an audited document, from its rows and the probes: broken documents first, then those to
      look at, then those merely underway, and all others are consistent. */
  lemma BucketIsExact(r: Record, stale: bool, storage: StorageProbe, vectors: VectorProbe,
                      overall: OverallStatus, findings: seq<Finding>)
    requires Audited(r, stale, storage, vectors, overall, findings)
    ensures Classify(overall, findings) ==
              if Broken(r, storage, vectors) then ClassInconsistent
              else if Noteworthy(r, stale, storage, vectors) then ClassWarning
              else if Underway(r) then ClassTransitional
              else ClassConsistent
  {
    ErrorIsMentioned(findings);
    InfoIsMentioned(findings);
    BrokenIsMeant(r, stale, storage, vectors);
    if Noteworthy(r, stale, storage, vectors) {
      var code := NoteworthyMeans(r, stale, storage, vectors);
      assert Mentions(findings, code);
    } else {
      forall code | Mentions(findings, code) && code !in ERRORS ensures code in PROGRESS {
        if code !in PROGRESS {
          MeansNoteworthy(r, stale, storage, vectors, code);
        }
      }
      UnderwayIsMeant(r, stale, storage, vectors);
    }
  }

  /** In a state of a run, with both providers answering truthfully, only the rows decide between the buckets
      of a document that lacks nothing. */
  lemma ReachableBucketIsExact(states: seq<System>, steps: seq<Step>, i: nat, d: nat, stale: bool, storage: StorageProbe,
                               vectors: VectorProbe, overall: OverallStatus, findings: seq<Finding>)
    requires Run(states, steps) && i < |states| && d < |states[i].docs|
    requires Truthful(states[i].docs[d], EnvOf(states[i], d), storage, vectors)
    requires Audited(states[i].docs[d], stale, storage, vectors, overall, findings)
    ensures var r, env := states[i].docs[d], EnvOf(states[i], d);
            Classify(overall, findings) ==
              if (r.deletion == [] || Last(r.deletion).status != DeletionCompleted)
                 && (!env.stored || (r.collection.Some? && !Held(r.points, r.collection.value))) then ClassInconsistent
              else if (r.deletion != [] && Last(r.deletion).status != DeletionCompleted)
                      || (r.ingestion != [] && Last(r.ingestion).status == Processing && stale)
                      || (exists k :: 0 <= k < |r.cleanup| && r.cleanup[k].status != CleanupCompleted) then ClassWarning
              else if (r.ingestion != [] && (Last(r.ingestion).status == Pending || Last(r.ingestion).status == Processing))
                      || (r.reindex != [] && Last(r.reindex).status == Completed && !Last(r.reindex).activated) then ClassTransitional
              else ClassConsistent
  {
    var r, env := states[i].docs[d], EnvOf(states[i], d);
    RunInv(states, steps, i, d);
    assert Indexed(r.collection, r.metadata, r.ingestion, env.catalog, env.stored);
    BucketIsExact(r, stale, storage, vectors, overall, findings);
    assert Broken(r, storage, vectors) <==>
      (r.deletion == [] || Last(r.deletion).status != DeletionCompleted)
      && (!env.stored || (r.collection.Some? && !Held(r.points, r.collection.value)));
  }

  /** The single-document audit endpoint: the audit and its bucket. */
  method AuditAndClassify(found: Option<Record>, stale: bool, storage: StorageProbe, vectors: VectorProbe)
    returns (overall: OverallStatus, findings: seq<Finding>, classification: Classification)
    ensures classification == ClassNotFound <==> found.None?
    ensures found.Some? ==> Audited(found.value, stale, storage, vectors, overall, findings)
    ensures found.Some? ==>
              && (classification == ClassInconsistent <==> Broken(found.value, storage, vectors))
              && (classification == ClassWarning <==>
                    Noteworthy(found.value, stale, storage, vectors) && !Broken(found.value, storage, vectors))
              && (classification == ClassTransitional <==>
                    && Underway(found.value)
                    && !Noteworthy(found.value, stale, storage, vectors) && !Broken(found.value, storage, vectors))
  {
    overall, findings := AuditDocument(found, stale, storage, vectors);
    classification := Classify(overall, findings);
    if found.Some? {
      BucketIsExact(found.value, stale, storage, vectors, overall, findings);
    }
  }
}

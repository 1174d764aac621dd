/** The single-document lifecycle audit, and exactly when it calls a reachable document inconsistent. */
module Audit {
  import opened Wrappers
  import opened DocumentRecord
  import opened Steps
  import opened Invariant
  import opened Catalogue
  import opened BuildsAndDeletions
  import opened Guarantees
  import opened Health

  datatype Severity = Info | Warning | Error
  datatype OverallStatus = NotFound | Consistent | Inconsistent

  datatype Code =
    | DocumentMissing
    | ObjectMissing
    | StorageInspectionUnavailable
    | ActiveCollectionMissing
    | ActiveVectorsMissing
    | VectorInspectionUnavailable
    | IndexMetadataIncomplete
    | IngestionInProgress
    | StaleIngestionJob
    | DeletionIsPending
    | DeletionIsProcessing
    | DeletionHasPartiallyFailed
    | VectorCleanupIncomplete
    | ReindexTargetBuiltNotActivated
    | ReindexCleanupPending

  datatype Finding = Finding(code: Code, severity: Severity)

  /** What a probe of object storage returns: whether the object is there, or a StorageError. */
  datatype StorageProbe = StorageUnavailable | ObjectSeen(present: bool)

  /** What the two vector-store calls return, in the order they are made. */
  datatype VectorProbe = SizeUnavailable | NoCollection | CountUnavailable | Counted(count: nat)

  /** Each finding code has one severity wherever it is reported. */
  function SeverityOf(code: Code): Severity {
    match code
    case IngestionInProgress => Info
    case ReindexTargetBuiltNotActivated => Info
    case DocumentMissing => Error
    case ObjectMissing => Error
    case ActiveCollectionMissing => Error
    case ActiveVectorsMissing => Error
    case IndexMetadataIncomplete => Error
    case _ => Warning
  }

  // ----- what each code means -----

  predicate LatestIngestion(r: Record, status: JobStatus) {
    r.ingestion != [] && Last(r.ingestion).status == status
  }

  predicate LatestDeletion(r: Record, status: DeletionStatus) {
    r.deletion != [] && Last(r.deletion).status == status
  }

  /** The latest re-index job is built; `activated` says whether it was also activated. */
  predicate LatestBuilt(r: Record, activated: bool) {
    r.reindex != [] && Last(r.reindex).status == Completed && Last(r.reindex).activated == activated
  }

  /** The collection whose cleanup is reported with the latest cutover, if that one was activated. */
  function CutoverSource(r: Record): set<Collection> {
    if LatestBuilt(r, true) then {Last(r.reindex).source} else {}
  }

  /** How many cleanup rows are open on collections other than those in `reported`. */
  function OpenRows(cleanup: seq<CleanupJob>, reported: set<Collection>): nat {
    if cleanup == [] then 0
    else OpenRows(cleanup[..|cleanup| - 1], reported) + Once(OpenRow(Last(cleanup)) && Last(cleanup).collection !in reported)
  }

  function Once(condition: bool): nat {
    if condition then 1 else 0
  }

  lemma {:induction false} OpenRowsAreFound(cleanup: seq<CleanupJob>, reported: set<Collection>)
    ensures OpenRows(cleanup, reported) > 0 <==>
              exists k :: 0 <= k < |cleanup| && OpenRow(cleanup[k]) && cleanup[k].collection !in reported
  {
    if cleanup != [] {
      var before := cleanup[..|cleanup| - 1];
      OpenRowsAreFound(before, reported);
      assert forall k :: 0 <= k < |before| ==> before[k] == cleanup[k];
    }
  }

  /** The codes Postgres alone decides. */
  predicate RowReports(r: Record, stale: bool, code: Code) {
    match code
    case IndexMetadataIncomplete => LatestIngestion(r, Completed) && (r.collection.None? || r.metadata.None?)
    case IngestionInProgress => LatestIngestion(r, Pending) || (LatestIngestion(r, Processing) && !stale)
    case StaleIngestionJob => LatestIngestion(r, Processing) && stale
    case DeletionIsPending => LatestDeletion(r, DeletionPending)
    case DeletionIsProcessing => LatestDeletion(r, DeletionProcessing)
    case DeletionHasPartiallyFailed => LatestDeletion(r, DeletionPartiallyFailed)
    case VectorCleanupIncomplete =>
      exists k :: 0 <= k < |r.cleanup| && OpenRow(r.cleanup[k]) && r.cleanup[k].collection !in CutoverSource(r)
    case ReindexTargetBuiltNotActivated => LatestBuilt(r, false)
    case ReindexCleanupPending => LatestBuilt(r, true) && OpenCleanup(r.cleanup, Last(r.reindex).source)
    case _ => false
  }

  predicate StorageReports(storage: StorageProbe, code: Code) {
    match storage
    case StorageUnavailable => code == StorageInspectionUnavailable
    case ObjectSeen(present) => !present && code == ObjectMissing
  }

  predicate VectorReports(vectors: VectorProbe, code: Code) {
    match vectors
    case NoCollection => code == ActiveCollectionMissing
    case Counted(count) => count == 0 && code == ActiveVectorsMissing
    case _ => code == VectorInspectionUnavailable
  }

  /** The codes that need a provider; neither is asked after a completed deletion, nor Qdrant about a
      document that serves from no collection. */
  predicate ProviderReports(r: Record, storage: StorageProbe, vectors: VectorProbe, code: Code) {
    && !LatestDeletion(r, DeletionCompleted)
    && (StorageReports(storage, code) || (r.collection.Some? && VectorReports(vectors, code)))
  }

  predicate Reports(r: Record, stale: bool, storage: StorageProbe, vectors: VectorProbe, code: Code) {
    RowReports(r, stale, code) || ProviderReports(r, storage, vectors, code)
  }

  ghost predicate ReportsError(r: Record, stale: bool, storage: StorageProbe, vectors: VectorProbe) {
    exists code :: SeverityOf(code) == Error && Reports(r, stale, storage, vectors, code)
  }

  // ----- the audit -----

  predicate Mentions(findings: seq<Finding>, code: Code) {
    exists i :: 0 <= i < |findings| && findings[i].code == code
  }

  /** How many findings carry `code`. */
  function CodeCount(findings: seq<Finding>, code: Code): nat {
    if findings == [] then 0 else CodeCount(findings[..|findings| - 1], code) + Once(Last(findings).code == code)
  }

  lemma {:induction false} CountedIsMentioned(findings: seq<Finding>, code: Code)
    ensures CodeCount(findings, code) > 0 <==> Mentions(findings, code)
  {
    if findings != [] {
      var before := findings[..|findings| - 1];
      CountedIsMentioned(before, code);
      assert forall k :: 0 <= k < |before| ==> before[k] == findings[k];
    }
  }

  /** How often the audit reports `code`: an unresolved cleanup once for each of its rows, all others once. */
  function Times(r: Record, stale: bool, storage: StorageProbe, vectors: VectorProbe, code: Code): nat {
    if code == VectorCleanupIncomplete then OpenRows(r.cleanup, CutoverSource(r))
    else Once(Reports(r, stale, storage, vectors, code))
  }

  predicate DeletionCode(code: Code) {
    code.DeletionIsPending? || code.DeletionIsProcessing? || code.DeletionHasPartiallyFailed?
  }

  predicate IngestionCode(code: Code) {
    code.IndexMetadataIncomplete? || code.IngestionInProgress? || code.StaleIngestionJob?
  }

  predicate ReindexCode(code: Code) {
    code.ReindexTargetBuiltNotActivated? || code.ReindexCleanupPending?
  }

  /** Each code is reported by one part of the audit only. */
  lemma PartsAddUp(r: Record, stale: bool, storage: StorageProbe, vectors: VectorProbe, code: Code)
    ensures Times(r, stale, storage, vectors, code) ==
              Once(RowReports(r, true, code) && DeletionCode(code))
              + Once(RowReports(r, stale, code) && IngestionCode(code))
              + (if code == VectorCleanupIncomplete then OpenRows(r.cleanup, CutoverSource(r))
                 else Once(RowReports(r, true, code) && ReindexCode(code)))
              + Once(ProviderReports(r, storage, vectors, code))
  {
  }

  lemma MentionedIsReported(r: Record, stale: bool, storage: StorageProbe, vectors: VectorProbe, findings: seq<Finding>, code: Code)
    requires CodeCount(findings, code) == Times(r, stale, storage, vectors, code)
    ensures Mentions(findings, code) <==> Reports(r, stale, storage, vectors, code)
  {
    CountedIsMentioned(findings, code);
    OpenRowsAreFound(r.cleanup, CutoverSource(r));
  }

  predicate WellGraded(findings: seq<Finding>) {
    forall i :: 0 <= i < |findings| ==> findings[i].severity == SeverityOf(findings[i].code)
  }

  function Add(findings: seq<Finding>, code: Code): (r: seq<Finding>)
    requires WellGraded(findings)
    ensures WellGraded(r)
    ensures forall other :: CodeCount(r, other) == CodeCount(findings, other) + Once(other == code)
  {
    var r := findings + [Finding(code, SeverityOf(code))];
    assert r[..|r| - 1] == findings;
    r
  }

  lemma DeletionCodeIs(r: Record, code: Code)
    ensures RowReports(r, true, code) && DeletionCode(code) <==>
              || (code == DeletionIsPending && LatestDeletion(r, DeletionPending))
              || (code == DeletionIsProcessing && LatestDeletion(r, DeletionProcessing))
              || (code == DeletionHasPartiallyFailed && LatestDeletion(r, DeletionPartiallyFailed))
  {
  }

  method AuditDeletion(r: Record) returns (findings: seq<Finding>)
    ensures WellGraded(findings)
    ensures forall code :: CodeCount(findings, code) == Once(RowReports(r, true, code)
              && DeletionCode(code))
  {
    findings := [];
    if r.deletion != [] {
      var status := Last(r.deletion).status;
      if status == DeletionPending {
        findings := Add(findings, DeletionIsPending);
      } else if status == DeletionProcessing {
        findings := Add(findings, DeletionIsProcessing);
      } else if status == DeletionPartiallyFailed {
        findings := Add(findings, DeletionHasPartiallyFailed);
      }
    }
    forall code ensures CodeCount(findings, code) == Once(RowReports(r, true, code) && DeletionCode(code)) {
      DeletionCodeIs(r, code);
    }
  }

  method AuditIngestion(r: Record, stale: bool, before: seq<Finding>) returns (findings: seq<Finding>)
    requires WellGraded(before)
    ensures WellGraded(findings)
    ensures forall code :: CodeCount(findings, code) == CodeCount(before, code) + Once(RowReports(r, stale, code)
              && IngestionCode(code))
  {
    findings := before;
    if r.ingestion != [] && Last(r.ingestion).status == Completed {
      if r.collection.None? || r.metadata.None? {
        findings := Add(findings, IndexMetadataIncomplete);
      }
    } else if r.ingestion != [] && Last(r.ingestion).status == Processing {
      findings := Add(findings, if stale then StaleIngestionJob else IngestionInProgress);
    } else if r.ingestion != [] && Last(r.ingestion).status == Pending {
      findings := Add(findings, IngestionInProgress);
    }
  }

  method AuditReindex(r: Record, before: seq<Finding>) returns (findings: seq<Finding>)
    requires WellGraded(before)
    ensures WellGraded(findings)
    ensures forall code :: CodeCount(findings, code) == CodeCount(before, code) +
              if code == VectorCleanupIncomplete then OpenRows(r.cleanup, CutoverSource(r))
              else Once(RowReports(r, true, code) && ReindexCode(code))
  {
    findings := before;
    var reported: set<Collection> := {};
    if r.reindex != [] && Last(r.reindex).status == Completed {
      if !Last(r.reindex).activated {
        findings := Add(findings, ReindexTargetBuiltNotActivated);
      } else {
        reported := {Last(r.reindex).source};
        if Last(r.reindex).source in OpenCleanupCollections(r.cleanup) {
          findings := Add(findings, ReindexCleanupPending);
        }
      }
    }
    findings := AuditCleanup(r, reported, findings);
  }

  /** One finding for every open cleanup row whose collection is not in `reported`. */
  method AuditCleanup(r: Record, reported: set<Collection>, before: seq<Finding>) returns (findings: seq<Finding>)
    requires WellGraded(before)
    ensures WellGraded(findings)
    ensures forall code :: CodeCount(findings, code) == CodeCount(before, code) +
              if code == VectorCleanupIncomplete then OpenRows(r.cleanup, reported) else 0
  {
    findings := before;
    assert OpenRows(r.cleanup[..0], reported) == 0;
    for i := 0 to |r.cleanup|
      invariant WellGraded(findings)
      invariant forall code :: CodeCount(findings, code) == CodeCount(before, code) +
                  if code == VectorCleanupIncomplete then OpenRows(r.cleanup[..i], reported) else 0
    {
      assert r.cleanup[..i + 1][..i] == r.cleanup[..i];
      if OpenRow(r.cleanup[i]) && r.cleanup[i].collection !in reported {
        findings := Add(findings, VectorCleanupIncomplete);
      }
    }
    assert r.cleanup[..|r.cleanup|] == r.cleanup;
  }

  method AuditStorage(storage: StorageProbe, before: seq<Finding>) returns (findings: seq<Finding>)
    requires WellGraded(before)
    ensures WellGraded(findings)
    ensures forall code :: CodeCount(findings, code) == CodeCount(before, code) + Once(StorageReports(storage, code))
  {
    findings := before;
    match storage
    case StorageUnavailable => findings := Add(findings, StorageInspectionUnavailable);
    case ObjectSeen(present) =>
      if !present {
        findings := Add(findings, ObjectMissing);
      }
  }

  method AuditVectors(vectors: VectorProbe, before: seq<Finding>) returns (findings: seq<Finding>)
    requires WellGraded(before)
    ensures WellGraded(findings)
    ensures forall code :: CodeCount(findings, code) == CodeCount(before, code) + Once(VectorReports(vectors, code))
  {
    findings := before;
    match vectors
    case SizeUnavailable => findings := Add(findings, VectorInspectionUnavailable);
    case NoCollection => findings := Add(findings, ActiveCollectionMissing);
    case CountUnavailable => findings := Add(findings, VectorInspectionUnavailable);
    case Counted(count) =>
      if count == 0 {
        findings := Add(findings, ActiveVectorsMissing);
      }
  }

  method AuditProviders(r: Record, storage: StorageProbe, vectors: VectorProbe, before: seq<Finding>)
    returns (findings: seq<Finding>)
    requires WellGraded(before)
    ensures WellGraded(findings)
    ensures forall code ::
              CodeCount(findings, code) == CodeCount(before, code) + Once(ProviderReports(r, storage, vectors, code))
  {
    findings := before;
    var deletionCompleted := r.deletion != [] && Last(r.deletion).status == DeletionCompleted;
    if !deletionCompleted {
      findings := AuditStorage(storage, findings);
    }
    if r.collection.Some? && !deletionCompleted {
      findings := AuditVectors(vectors, findings);
    }
  }

  method OverallOf(findings: seq<Finding>) returns (overall: OverallStatus)
    ensures overall == if HasError(findings) then Inconsistent else Consistent
  {
    overall := Consistent;
    for i := 0 to |findings|
      invariant overall == if HasError(findings[..i]) then Inconsistent else Consistent
    {
      assert findings[..i + 1] == findings[..i] + [findings[i]];
      if findings[i].severity == Error {
        assert findings[..i + 1][i].severity == Error;
        overall := Inconsistent;
      }
    }
    assert findings[..|findings|] == findings;
  }

  // ----- the findings in terms of rows and answers -----

  /** What each code says about the document's rows and the providers' answers. */
  ghost predicate Means(r: Record, stale: bool, storage: StorageProbe, vectors: VectorProbe, code: Code) {
    var deleted := r.deletion != [] && Last(r.deletion).status == DeletionCompleted;
    var cutover := r.reindex != [] && Last(r.reindex).status == Completed && Last(r.reindex).activated;
    match code
    case DocumentMissing => false
    case DeletionIsPending => r.deletion != [] && Last(r.deletion).status == DeletionPending
    case DeletionIsProcessing => r.deletion != [] && Last(r.deletion).status == DeletionProcessing
    case DeletionHasPartiallyFailed => r.deletion != [] && Last(r.deletion).status == DeletionPartiallyFailed
    case IndexMetadataIncomplete =>
      r.ingestion != [] && Last(r.ingestion).status == Completed && (r.collection.None? || r.metadata.None?)
    case IngestionInProgress =>
      r.ingestion != [] && (Last(r.ingestion).status == Pending || (Last(r.ingestion).status == Processing && !stale))
    case StaleIngestionJob => r.ingestion != [] && Last(r.ingestion).status == Processing && stale
    case ReindexTargetBuiltNotActivated =>
      r.reindex != [] && Last(r.reindex).status == Completed && !Last(r.reindex).activated
    case ReindexCleanupPending =>
      cutover && exists k :: 0 <= k < |r.cleanup| && r.cleanup[k].status != CleanupCompleted
                             && r.cleanup[k].collection == Last(r.reindex).source
    case VectorCleanupIncomplete =>
      exists k :: 0 <= k < |r.cleanup| && r.cleanup[k].status != CleanupCompleted
                  && !(cutover && r.cleanup[k].collection == Last(r.reindex).source)
    case ObjectMissing => !deleted && storage == ObjectSeen(false)
    case StorageInspectionUnavailable => !deleted && storage == StorageUnavailable
    case ActiveCollectionMissing => !deleted && r.collection.Some? && vectors == NoCollection
    case ActiveVectorsMissing => !deleted && r.collection.Some? && vectors == Counted(0)
    case VectorInspectionUnavailable =>
      !deleted && r.collection.Some? && (vectors == SizeUnavailable || vectors == CountUnavailable)
  }

  lemma ReportedIsMeant(r: Record, stale: bool, storage: StorageProbe, vectors: VectorProbe, code: Code)
    ensures Reports(r, stale, storage, vectors, code) <==> Means(r, stale, storage, vectors, code)
  {
    if code == ReindexCleanupPending && RowReports(r, stale, code) {
      var k :| 0 <= k < |r.cleanup| && OpenRow(r.cleanup[k]) && r.cleanup[k].collection == Last(r.reindex).source;
      assert r.cleanup[k].status != CleanupCompleted;
    }
  }

  /** Which severity a finding has. */
  predicate Graded(finding: Finding) {
    && (finding.severity == Error <==>
          finding.code in {DocumentMissing, ObjectMissing, ActiveCollectionMissing, ActiveVectorsMissing, IndexMetadataIncomplete})
    && (finding.severity == Info <==> finding.code in {IngestionInProgress, ReindexTargetBuiltNotActivated})
  }

  lemma {:induction false} OpenRowsIsSize(cleanup: seq<CleanupJob>, reported: set<Collection>)
    ensures OpenRows(cleanup, reported) ==
              |set k | 0 <= k < |cleanup| && cleanup[k].status != CleanupCompleted && cleanup[k].collection !in reported|
  {
    if cleanup != [] {
      var n, before := |cleanup| - 1, cleanup[..|cleanup| - 1];
      OpenRowsIsSize(before, reported);
      var small := set k | 0 <= k < n && before[k].status != CleanupCompleted && before[k].collection !in reported;
      var all := set k | 0 <= k <= n && cleanup[k].status != CleanupCompleted && cleanup[k].collection !in reported;
      assert all == if OpenRow(cleanup[n]) && cleanup[n].collection !in reported then small + {n} else small;
      assert all == set k | 0 <= k < |cleanup| && cleanup[k].status != CleanupCompleted && cleanup[k].collection !in reported;
    }
  }

  function Positions(findings: seq<Finding>, code: Code, n: nat): set<nat>
    requires n <= |findings|
  {
    set k | 0 <= k < n && findings[k].code == code
  }

  lemma {:induction false} CountUpTo(findings: seq<Finding>, code: Code, n: nat)
    requires n <= |findings|
    ensures CodeCount(findings[..n], code) == |Positions(findings, code, n)|
  {
    if n > 0 {
      CountUpTo(findings, code, n - 1);
      assert findings[..n][..n - 1] == findings[..n - 1];
      assert Positions(findings, code, n) ==
        Positions(findings, code, n - 1) + if findings[n - 1].code == code then {n - 1} else {};
    }
  }

  lemma CodeCountIsSize(findings: seq<Finding>, code: Code)
    ensures CodeCount(findings, code) == |set k | 0 <= k < |findings| && findings[k].code == code|
  {
    CountUpTo(findings, code, |findings|);
    assert findings[..|findings|] == findings;
    assert Positions(findings, code, |findings|) == set k | 0 <= k < |findings| && findings[k].code == code;
  }

  /** audit_document_lifecycle: a code is reported exactly when its condition holds and exactly as often as
      it should be, and the document is inconsistent exactly when some reported code is an error. */
  method AuditDocument(found: Option<Record>, stale: bool, storage: StorageProbe, vectors: VectorProbe)
    returns (overall: OverallStatus, findings: seq<Finding>)
    ensures WellGraded(findings)
    ensures found.None? ==> overall == NotFound && findings == [Finding(DocumentMissing, Error)]
    ensures found.Some? ==> forall code :: CodeCount(findings, code) == Times(found.value, stale, storage, vectors, code)
    ensures found.Some? ==> forall code :: Mentions(findings, code) <==> Reports(found.value, stale, storage, vectors, code)
    ensures found.Some? ==> forall code :: Mentions(findings, code) <==> Means(found.value, stale, storage, vectors, code)
    ensures forall i :: 0 <= i < |findings| ==> Graded(findings[i])
    ensures found.Some? ==>
              (overall == Inconsistent <==> exists i :: 0 <= i < |findings| && findings[i].severity == Error)
    ensures found.Some? ==>
              overall == if ReportsError(found.value, stale, storage, vectors) then Inconsistent else Consistent
  {
    if found.None? {
      return NotFound, [Finding(DocumentMissing, Error)];
    }
    var r := found.value;
    findings := AuditDeletion(r);
    findings := AuditIngestion(r, stale, findings);
    findings := AuditReindex(r, findings);
    findings := AuditProviders(r, storage, vectors, findings);
    forall code ensures CodeCount(findings, code) == Times(r, stale, storage, vectors, code) {
      PartsAddUp(r, stale, storage, vectors, code);
    }
    overall := OverallOf(findings);
    FindingsAreMeant(r, stale, storage, vectors, findings);
    ErrorsAreReported(r, stale, storage, vectors, findings);
  }

  lemma FindingsAreMeant(r: Record, stale: bool, storage: StorageProbe, vectors: VectorProbe, findings: seq<Finding>)
    requires WellGraded(findings)
    requires forall code :: CodeCount(findings, code) == Times(r, stale, storage, vectors, code)
    ensures forall code :: Mentions(findings, code) <==> Reports(r, stale, storage, vectors, code)
    ensures forall code :: Mentions(findings, code) <==> Means(r, stale, storage, vectors, code)
    ensures forall i :: 0 <= i < |findings| ==> Graded(findings[i])
  {
    forall code ensures Mentions(findings, code) <==> Reports(r, stale, storage, vectors, code)
                ensures Mentions(findings, code) <==> Means(r, stale, storage, vectors, code)
    {
      MentionedIsReported(r, stale, storage, vectors, findings, code);
      ReportedIsMeant(r, stale, storage, vectors, code);
    }
  }

  predicate HasError(findings: seq<Finding>) {
    exists i :: 0 <= i < |findings| && findings[i].severity == Error
  }

  lemma ErrorsAreReported(r: Record, stale: bool, storage: StorageProbe, vectors: VectorProbe, findings: seq<Finding>)
    requires WellGraded(findings)
    requires forall code :: Mentions(findings, code) <==> Reports(r, stale, storage, vectors, code)
    ensures HasError(findings) <==> ReportsError(r, stale, storage, vectors)
  {
    if HasError(findings) {
      var i :| 0 <= i < |findings| && findings[i].severity == Error;
      assert Mentions(findings, findings[i].code);
    }
    if ReportsError(r, stale, storage, vectors) {
      var code :| SeverityOf(code) == Error && Reports(r, stale, storage, vectors, code);
      assert Mentions(findings, code);
      var i :| 0 <= i < |findings| && findings[i].code == code;
      assert findings[i].severity == Error;
    }
  }

  // ----- what an error means in a reachable state -----

  /** Both providers are reachable and answer from the true state. Qdrant may not have the collection at
      all, but then it holds no points of the document there. */
  predicate Truthful(r: Record, env: Env, storage: StorageProbe, vectors: VectorProbe) {
    && storage == ObjectSeen(env.stored)
    && (r.collection.Some? ==>
          match vectors
          case Counted(count) => count == |PointsIn(r.points, r.collection.value)|
          case NoCollection => !Held(r.points, r.collection.value)
          case _ => false)
  }

  lemma ErrorCodes(r: Record, env: Env, stale: bool, storage: StorageProbe, vectors: VectorProbe, code: Code)
    requires Inv(r, env)
    ensures SeverityOf(code) == Error && Reports(r, stale, storage, vectors, code) <==>
              (code.ObjectMissing? || code.ActiveCollectionMissing? || code.ActiveVectorsMissing?)
              && ProviderReports(r, storage, vectors, code)
    ensures !Reports(r, stale, storage, vectors, IndexMetadataIncomplete)
  {
    assert Indexed(r.collection, r.metadata, r.ingestion, env.catalog, env.stored);
  }

  /** In a reachable state the audit reports an error exactly when the latest deletion has not completed and
      the object, or every point of the served collection, is gone. It never blames the index metadata. */
  lemma ErrorIsExact(r: Record, env: Env, stale: bool, storage: StorageProbe, vectors: VectorProbe)
    requires Inv(r, env) && Truthful(r, env, storage, vectors)
    ensures ReportsError(r, stale, storage, vectors) <==>
              !LatestDeletion(r, DeletionCompleted) && (!env.stored || (r.collection.Some? && !Held(r.points, r.collection.value)))
    ensures !Reports(r, stale, storage, vectors, IndexMetadataIncomplete)
  {
    forall code ensures SeverityOf(code) == Error && Reports(r, stale, storage, vectors, code) <==>
                          (code.ObjectMissing? || code.ActiveCollectionMissing? || code.ActiveVectorsMissing?)
                          && ProviderReports(r, storage, vectors, code)
    {
      ErrorCodes(r, env, stale, storage, vectors, code);
    }
    ErrorCodes(r, env, stale, storage, vectors, IndexMetadataIncomplete);
    if !LatestDeletion(r, DeletionCompleted) && !env.stored {
      assert ProviderReports(r, storage, vectors, ObjectMissing);
    }
    if !LatestDeletion(r, DeletionCompleted) && r.collection.Some? && !Held(r.points, r.collection.value) {
      assert ProviderReports(r, storage, vectors, if vectors.NoCollection? then ActiveCollectionMissing else ActiveVectorsMissing);
    }
  }

  /** In a run in which no document returns to a collection it vacated, the audit finds no error on any
      document nobody asked to delete. */
  lemma HealthyRunsAuditClean(states: seq<System>, steps: seq<Step>, i: nat, d: nat, stale: bool,
                              storage: StorageProbe, vectors: VectorProbe)
    requires Run(states, steps) && i < |states| && d < |states[i].docs| && states[i].docs[d].deletion == []
    requires forall k :: 0 <= k < i ==> NoReturnStep(states[k], steps[k])
    requires Truthful(states[i].docs[d], EnvOf(states[i], d), storage, vectors)
    ensures !ReportsError(states[i].docs[d], stale, storage, vectors)
  {
    NoReturnRunServes(states, steps, i, d);
    RunInv(states, steps, i, d);
    var r, env := states[i].docs[d], EnvOf(states[i], d);
    assert Kept(r.deletion, r.hash, env.stored);
    ErrorIsExact(r, env, stale, storage, vectors);
  }

  lemma LatestSurvivesStep(s: System, step: Step, d: nat)
    requires CanStep(s, step) && d < |s.docs| && Inv(s.docs[d], EnvOf(s, d)) && AtomicStep(s, step)
    requires LatestDeletion(s.docs[d], DeletionCompleted)
    ensures d < |Next(s, step).docs| && Next(s, step).docs[d].deletion == s.docs[d].deletion
  {
    if step.Touch? && step.doc == d {
      DoneStaysDone(s.docs[d], step.step, EnvOf(s, d), |s.docs[d].deletion| - 1);
    }
  }

  lemma {:induction false} LatestStaysLatest(states: seq<System>, steps: seq<Step>, i: nat, j: nat, d: nat)
    requires Run(states, steps) && i <= j < |states| && forall m :: i <= m < j ==> AtomicStep(states[m], steps[m])
    requires d < |states[i].docs| && LatestDeletion(states[i].docs[d], DeletionCompleted)
    ensures d < |states[j].docs| && states[j].docs[d].deletion == states[i].docs[d].deletion
    decreases j
  {
    if i < j {
      LatestStaysLatest(states, steps, i, j - 1, d);
      assert StepAt(states, steps, j - 1);
      RunInv(states, steps, j - 1, d);
      LatestSurvivesStep(states[j - 1], steps[j - 1], d);
    }
  }

  lemma CompletedReportsNoError(r: Record, env: Env, stale: bool, storage: StorageProbe, vectors: VectorProbe)
    requires Inv(r, env) && LatestDeletion(r, DeletionCompleted)
    ensures !ReportsError(r, stale, storage, vectors)
  {
    forall code ensures !(SeverityOf(code) == Error && Reports(r, stale, storage, vectors, code)) {
      ErrorCodes(r, env, stale, storage, vectors, code);
    }
  }

  /** After a completed deletion the audit reports an error exactly when a later request's job is not itself
      completed, because the object is missing then; where requests are atomic that never happens. */
  lemma DeletedDocumentsAuditClean(states: seq<System>, steps: seq<Step>, i: nat, j: nat, d: nat, stale: bool,
                                   storage: StorageProbe, vectors: VectorProbe)
    requires Run(states, steps) && i <= j < |states|
    requires d < |states[i].docs| && DeletionDone(states[i].docs[d].deletion)
    ensures d < |states[j].docs|
    ensures Truthful(states[j].docs[d], EnvOf(states[j], d), storage, vectors) ==>
              (ReportsError(states[j].docs[d], stale, storage, vectors) <==> !LatestDeletion(states[j].docs[d], DeletionCompleted))
    ensures LatestDeletion(states[i].docs[d], DeletionCompleted) && (forall m :: i <= m < j ==> AtomicStep(states[m], steps[m])) ==>
              !ReportsError(states[j].docs[d], stale, storage, vectors)
  {
    var k :| 0 <= k < |states[i].docs[d].deletion| && states[i].docs[d].deletion[k].status == DeletionCompleted;
    DeletionIsPermanent(states, steps, i, j, d, k);
    RunInv(states, steps, j, d);
    var r, env := states[j].docs[d], EnvOf(states[j], d);
    if Truthful(r, env, storage, vectors) {
      ErrorIsExact(r, env, stale, storage, vectors);
    }
    if LatestDeletion(states[i].docs[d], DeletionCompleted) && forall m :: i <= m < j ==> AtomicStep(states[m], steps[m]) {
      LatestStaysLatest(states, steps, i, j, d);
      CompletedReportsNoError(r, env, stale, storage, vectors);
    }
  }
}

/** The batch audit: one page of documents in `(created_at, id)` order, five triage buckets, and a cursor to
    the next page. */
module AuditBatch {
  import opened Wrappers
  import opened DocumentRecord
  import opened Timestamps
  import opened AuditCursor
  import opened Audit
  import opened Keyset

  const MIN_BATCH_LIMIT := 1
  const MAX_BATCH_LIMIT := 50

  datatype BatchError = InvalidLimit | InvalidCursor(error: CursorError)

  // ----- the keyset query -----

  /** Lexicographic order of ids. */
  predicate Less(a: string, b: string) {
    b != "" && (a == "" || a[0] < b[0] || (a[0] == b[0] && Less(a[1..], b[1..])))
  }

  lemma {:induction false} LessIsStrict(a: string, b: string)
    requires Less(a, b)
    ensures !Less(b, a) && a != b
  {
    if a != "" && a[0] == b[0] {
      LessIsStrict(a[1..], b[1..]);
    }
  }

  /** `a` and `b` agree on their first `n` characters, and then `a` ends or has the smaller one. */
  predicate Decides(a: string, b: string, n: nat) {
    n <= |a| && n < |b| && a[..n] == b[..n] && (n == |a| || a[n] < b[n])
  }

  lemma {:induction false} DecisionOrders(a: string, b: string, n: nat)
    requires Decides(a, b, n)
    ensures Less(a, b)
  {
    if n > 0 {
      assert a[0] == a[..n][0] == b[..n][0] == b[0];
      assert a[1..][..n - 1] == a[..n][1..] && b[1..][..n - 1] == b[..n][1..];
      DecisionOrders(a[1..], b[1..], n - 1);
    }
  }

  lemma {:induction false} OrderDecides(a: string, b: string) returns (n: nat)
    requires Less(a, b)
    ensures Decides(a, b, n)
  {
    n := 0;
    if a != "" && a[0] == b[0] {
      var rest := OrderDecides(a[1..], b[1..]);
      n := rest + 1;
      assert a[..n] == [a[0]] + a[1..][..rest] && b[..n] == [b[0]] + b[1..][..rest];
    }
  }

  lemma LessIsExact(a: string, b: string)
    ensures Less(a, b) <==> exists n: nat :: Decides(a, b, n)
  {
    if Less(a, b) {
      var n := OrderDecides(a, b);
    }
    if n: nat :| Decides(a, b, n) {
      DecisionOrders(a, b, n);
    }
  }

  /** `(created_at, id)` order; the columns of a document row that matter here are those of its cursor. */
  predicate Precedes(a: Cursor, b: Cursor) {
    Instant(a.createdAt) < Instant(b.createdAt) || (Instant(a.createdAt) == Instant(b.createdAt) && Less(a.documentId, b.documentId))
  }

  predicate WellFormed(row: Cursor) {
    Valid(row.createdAt) && IsUuid(row.documentId)
  }

  predicate AllWellFormed(rows: seq<Cursor>) {
    forall i :: 0 <= i < |rows| ==> WellFormed(rows[i])
  }

  /** The documents table in the query's order. */
  ghost predicate Table(rows: seq<Cursor>) {
    AllWellFormed(rows) && forall i, j :: 0 <= i < j < |rows| ==> Precedes(rows[i], rows[j])
  }

  lemma TableIsOrdered(rows: seq<Cursor>)
    requires Table(rows)
    ensures StrictlyOrdered(rows, Precedes)
  {
    forall i, j | 0 <= i <= j < |rows| ensures !Precedes(rows[j], rows[i]) {
      if Less(rows[j].documentId, rows[i].documentId) {
        LessIsStrict(rows[j].documentId, rows[i].documentId);
      }
    }
  }

  function EncodeCursor(row: Option<Cursor>): Option<string> {
    if row.Some? && IsUuid(row.value.documentId) then Some(Encode(row.value.createdAt, row.value.documentId)) else None
  }

  function DecodeCursor(text: Option<string>): Result<Option<Cursor>, CursorError> {
    if text.None? then Ok(None)
    else
      match Decode(text.value)
      case Err(error) => Err(error)
      case Ok(position) => Ok(Some(position))
  }

  datatype TextPage = TextPage(rows: seq<Cursor>, next: Option<string>)

  /** The page a request for `limit` documents after `cursor` is answered with. */
  function PageOf(rows: seq<Cursor>, limit: int, cursor: Option<string>): Result<TextPage, BatchError> {
    if limit < MIN_BATCH_LIMIT || limit > MAX_BATCH_LIMIT then Err(InvalidLimit)
    else
      match DecodeCursor(cursor)
      case Err(error) => Err(InvalidCursor(error))
      case Ok(position) =>
        var page := PageAfter(rows, Precedes, limit, position);
        Ok(TextPage(page.rows, EncodeCursor(page.next)))
  }

  // ----- classification and counting -----

  datatype Classification = ClassNotFound | ClassInconsistent | ClassConsistent | ClassTransitional | ClassWarning

  datatype Summary = Summary(document: Cursor, overall: OverallStatus, classification: Classification, findings: seq<Finding>)

  predicate AllInfo(findings: seq<Finding>) {
    forall i :: 0 <= i < |findings| ==> findings[i].severity == Info
  }

  function Classify(overall: OverallStatus, findings: seq<Finding>): Classification {
    if overall == NotFound then ClassNotFound
    else if overall == Inconsistent then ClassInconsistent
    else if findings == [] then ClassConsistent
    else if AllInfo(findings) then ClassTransitional
    else ClassWarning
  }

  /** The bucket of an audited document says what its findings say: an error, nothing, only progress, or
      something to look at. */
  lemma ClassifyIsTriage(overall: OverallStatus, findings: seq<Finding>)
    requires overall == if HasError(findings) then Inconsistent else Consistent
    ensures Classify(overall, findings) == ClassInconsistent <==> exists i :: 0 <= i < |findings| && findings[i].severity == Error
    ensures Classify(overall, findings) == ClassConsistent <==> findings == []
    ensures Classify(overall, findings) == ClassTransitional <==> findings != [] && AllInfo(findings)
    ensures Classify(overall, findings) == ClassWarning <==>
              (exists i :: 0 <= i < |findings| && findings[i].severity == Warning)
              && !exists i :: 0 <= i < |findings| && findings[i].severity == Error
  {
    if Classify(overall, findings) == ClassWarning {
      var i :| 0 <= i < |findings| && findings[i].severity != Info;
      assert findings[i].severity == Warning;
    }
  }

  predicate DependencyUnavailable(findings: seq<Finding>) {
    exists i :: 0 <= i < |findings| && (findings[i].code.StorageInspectionUnavailable? || findings[i].code.VectorInspectionUnavailable?)
  }

  /** How many of the summaries fall into the bucket. */
  function Tally(summaries: seq<Summary>, classification: Classification): nat {
    if summaries == [] then 0
    else
      Tally(summaries[..|summaries| - 1], classification) + if Last(summaries).classification == classification then 1 else 0
  }

  function Unavailable(summaries: seq<Summary>): nat {
    if summaries == [] then 0
    else Unavailable(summaries[..|summaries| - 1]) + if DependencyUnavailable(Last(summaries).findings) then 1 else 0
  }

  function AllFindings(summaries: seq<Summary>): seq<Finding> {
    if summaries == [] then [] else AllFindings(summaries[..|summaries| - 1]) + Last(summaries).findings
  }

  function CountIn(counts: map<Code, nat>, code: Code): nat {
    if code in counts then counts[code] else 0
  }

  lemma OneMoreSummary(recorded: seq<Summary>, summary: Summary)
    ensures var all := recorded + [summary];
            && (forall c :: Tally(all, c) == Tally(recorded, c) + if summary.classification == c then 1 else 0)
            && Unavailable(all) == Unavailable(recorded) + (if DependencyUnavailable(summary.findings) then 1 else 0)
            && AllFindings(all) == AllFindings(recorded) + summary.findings
  {
    assert (recorded + [summary])[..|recorded|] == recorded;
  }

  /** The summaries among the first `n` that fall into the bucket. */
  function InBucket(summaries: seq<Summary>, classification: Classification, n: nat): set<nat>
    requires n <= |summaries|
  {
    set k | 0 <= k < n && summaries[k].classification == classification
  }

  lemma InBucketGrows(summaries: seq<Summary>, classification: Classification, n: nat)
    requires n < |summaries|
    ensures |InBucket(summaries, classification, n + 1)| ==
              |InBucket(summaries, classification, n)| + if summaries[n].classification == classification then 1 else 0
  {
    var before := InBucket(summaries, classification, n);
    if summaries[n].classification == classification {
      assert InBucket(summaries, classification, n + 1) == before + {n};
    } else {
      assert InBucket(summaries, classification, n + 1) == before;
    }
  }

  lemma {:induction false} TallyUpTo(summaries: seq<Summary>, classification: Classification, n: nat)
    requires n <= |summaries|
    ensures Tally(summaries[..n], classification) == |InBucket(summaries, classification, n)|
  {
    if n > 0 {
      TallyUpTo(summaries, classification, n - 1);
      assert summaries[..n][..n - 1] == summaries[..n - 1];
      InBucketGrows(summaries, classification, n - 1);
    }
  }

  /** A bucket's counter is the number of the page's documents in that bucket. */
  lemma TallyIsSize(summaries: seq<Summary>, classification: Classification)
    ensures Tally(summaries, classification) == |set k | 0 <= k < |summaries| && summaries[k].classification == classification|
  {
    TallyUpTo(summaries, classification, |summaries|);
    assert summaries[..|summaries|] == summaries;
    assert InBucket(summaries, classification, |summaries|) ==
      set k | 0 <= k < |summaries| && summaries[k].classification == classification;
  }

  /** Some provider could not be asked about the document. */
  ghost predicate NotAsked(summary: Summary) {
    Mentions(summary.findings, StorageInspectionUnavailable) || Mentions(summary.findings, VectorInspectionUnavailable)
  }

  ghost function NotAskedIn(summaries: seq<Summary>, n: nat): set<nat>
    requires n <= |summaries|
  {
    set k | 0 <= k < n && NotAsked(summaries[k])
  }

  lemma {:induction false} UnavailableUpTo(summaries: seq<Summary>, n: nat)
    requires n <= |summaries|
    ensures Unavailable(summaries[..n]) == |NotAskedIn(summaries, n)|
  {
    if n > 0 {
      UnavailableUpTo(summaries, n - 1);
      assert summaries[..n][..n - 1] == summaries[..n - 1];
      assert DependencyUnavailable(summaries[n - 1].findings) <==> NotAsked(summaries[n - 1]);
      assert NotAskedIn(summaries, n) == NotAskedIn(summaries, n - 1) + if NotAsked(summaries[n - 1]) then {n - 1} else {};
    }
  }

  /** The unavailability counter is the number of the page's documents with a finding that storage, or the
      vector store, could not be inspected. */
  lemma UnavailableIsSize(summaries: seq<Summary>)
    ensures Unavailable(summaries) ==
              |set k | 0 <= k < |summaries| && (Mentions(summaries[k].findings, StorageInspectionUnavailable)
                                                 || Mentions(summaries[k].findings, VectorInspectionUnavailable))|
  {
    UnavailableUpTo(summaries, |summaries|);
    assert summaries[..|summaries|] == summaries;
    assert NotAskedIn(summaries, |summaries|) ==
      set k | 0 <= k < |summaries| && (Mentions(summaries[k].findings, StorageInspectionUnavailable)
                                        || Mentions(summaries[k].findings, VectorInspectionUnavailable));
  }

  class BatchCounters {
    var consistent: nat
    var transitional: nat
    var warning: nat
    var inconsistent: nat
    var notFound: nat
    var dependencyUnavailable: nat
    var findingCounts: map<Code, nat>

    constructor ()
      ensures Counted([])
    {
      consistent, transitional, warning, inconsistent, notFound, dependencyUnavailable := 0, 0, 0, 0, 0, 0;
      findingCounts := map[];
    }

    /** Every counter says how many of the recorded summaries, or of their findings, it stands for. */
    ghost predicate Counted(summaries: seq<Summary>)
      reads this
    {
      && consistent == Tally(summaries, ClassConsistent)
      && transitional == Tally(summaries, ClassTransitional)
      && warning == Tally(summaries, ClassWarning)
      && inconsistent == Tally(summaries, ClassInconsistent)
      && notFound == Tally(summaries, ClassNotFound)
      && dependencyUnavailable == Unavailable(summaries)
      && forall code :: CountIn(findingCounts, code) == CodeCount(AllFindings(summaries), code)
    }

    method Record(summary: Summary, ghost recorded: seq<Summary>)
      requires Counted(recorded)
      modifies this
      ensures Counted(recorded + [summary])
    {
      OneMoreSummary(recorded, summary);
      CountClassification(summary.classification);
      CountFindings(summary.findings, AllFindings(recorded));
      if DependencyUnavailable(summary.findings) {
        dependencyUnavailable := dependencyUnavailable + 1;
      }
    }

    method CountClassification(classification: Classification)
      modifies this`consistent, this`transitional, this`warning, this`inconsistent, this`notFound
      ensures consistent == old(consistent) + Once(classification == ClassConsistent)
      ensures transitional == old(transitional) + Once(classification == ClassTransitional)
      ensures warning == old(warning) + Once(classification == ClassWarning)
      ensures inconsistent == old(inconsistent) + Once(classification == ClassInconsistent)
      ensures notFound == old(notFound) + Once(classification == ClassNotFound)
    {
      match classification {
        case ClassNotFound => notFound := notFound + 1;
        case ClassInconsistent => inconsistent := inconsistent + 1;
        case ClassConsistent => consistent := consistent + 1;
        case ClassTransitional => transitional := transitional + 1;
        case ClassWarning => warning := warning + 1;
      }
    }

    method CountFindings(findings: seq<Finding>, ghost before: seq<Finding>)
      requires forall code :: CountIn(findingCounts, code) == CodeCount(before, code)
      modifies this`findingCounts
      ensures forall code :: CountIn(findingCounts, code) == CodeCount(before + findings, code)
    {
      assert before + findings[..0] == before;
      for i := 0 to |findings|
        invariant forall code :: CountIn(findingCounts, code) == CodeCount(before + findings[..i], code)
      {
        var code := findings[i].code;
        findingCounts := findingCounts[code := CountIn(findingCounts, code) + 1];
        assert (before + findings[..i + 1])[..|before| + i] == before + findings[..i];
      }
      assert findings[..|findings|] == findings;
    }
  }

  datatype BatchResult = BatchResult(scanned: nat, consistent: nat, transitional: nat, warning: nat, inconsistent: nat,
                                     notFound: nat, dependencyUnavailable: nat, findingCounts: map<Code, nat>,
                                     documents: seq<Summary>, next: Option<string>, hasMore: bool)

  /** One document's audit: its overall status and its findings. */
  type Auditor = Cursor -> (OverallStatus, seq<Finding>)

  function Summarize(audit: Auditor, row: Cursor): Summary {
    var (overall, findings) := audit(row);
    Summary(row, overall, Classify(overall, findings), findings)
  }

  function Summaries(audit: Auditor, rows: seq<Cursor>): seq<Summary> {
    seq(|rows|, i requires 0 <= i < |rows| => Summarize(audit, rows[i]))
  }

  /** Each summary of a page holds its document, what the audit returned about it, and the bucket of that. */
  lemma SummariesAreAudits(audit: Auditor, page: seq<Cursor>)
    ensures var summaries := Summaries(audit, page);
            && |summaries| == |page|
            && forall i :: 0 <= i < |page| ==>
                 && summaries[i].document == page[i] && (summaries[i].overall, summaries[i].findings) == audit(page[i])
                 && summaries[i].classification == Classify(summaries[i].overall, summaries[i].findings)
  {
    forall i | 0 <= i < |page|
      ensures var summary := Summaries(audit, page)[i];
              && summary.document == page[i] && (summary.overall, summary.findings) == audit(page[i])
              && summary.classification == Classify(summary.overall, summary.findings)
    {
      assert Summaries(audit, page)[i] == Summarize(audit, page[i]);
    }
  }

  /** The documents of a page come oldest first, those created at one instant in the order of their ids. */
  lemma PageIsOldestFirst(rows: seq<Cursor>, limit: nat, position: Option<Cursor>)
    requires Table(rows) && limit >= 1
    ensures var page := PageAfter(rows, Precedes, limit, position).rows;
            forall i, j :: 0 <= i < j < |page| ==>
              var a, b := page[i], page[j];
              || Instant(a.createdAt) < Instant(b.createdAt)
              || (Instant(a.createdAt) == Instant(b.createdAt) && Less(a.documentId, b.documentId))
  {
    TableIsOrdered(rows);
    var more := PageIsExact(rows, Precedes, limit, position);
    var page := PageAfter(rows, Precedes, limit, position).rows;
    forall i, j | 0 <= i < j < |page| ensures Precedes(page[i], page[j]) {
      assert (page + more)[i] == page[i] && (page + more)[j] == page[j];
    }
  }

  /** audit_document_lifecycle_batch: every document of the page audited once, in order. */
  method AuditLifecycleBatch(rows: seq<Cursor>, audit: Auditor, limit: int, cursor: Option<string>)
    returns (r: Result<BatchResult, BatchError>)
    requires Table(rows)
    ensures r.Err? && r.error.InvalidLimit? <==> limit < 1 || limit > 50
    ensures r.Err? && r.error.InvalidCursor? <==> 1 <= limit <= 50 && cursor.Some? && Decode(cursor.value).Err?
    ensures r.Err? && r.error.InvalidCursor? ==> r.error.error == Decode(cursor.value).error
    ensures r.Ok? <==> PageOf(rows, limit, cursor).Ok?
    ensures r.Ok? ==>
              && |r.value.documents| <= limit
              && forall i, j :: 0 <= i < j < |r.value.documents| ==> Precedes(r.value.documents[i].document, r.value.documents[j].document)
    ensures r.Ok? ==>
              var page, result := PageOf(rows, limit, cursor).value, r.value;
              && |result.documents| == |page.rows|
              && (forall i :: 0 <= i < |page.rows| ==>
                    && result.documents[i].document == page.rows[i]
                    && (result.documents[i].overall, result.documents[i].findings) == audit(page.rows[i])
                    && result.documents[i].classification == Classify(result.documents[i].overall, result.documents[i].findings))
              && result.next == page.next && (result.hasMore <==> page.next.Some?)
              && result.scanned == |page.rows|
              && result.consistent == Tally(result.documents, ClassConsistent)
              && result.transitional == Tally(result.documents, ClassTransitional)
              && result.warning == Tally(result.documents, ClassWarning)
              && result.inconsistent == Tally(result.documents, ClassInconsistent)
              && result.notFound == Tally(result.documents, ClassNotFound)
              && result.dependencyUnavailable == Unavailable(result.documents)
              && forall code :: CountIn(result.findingCounts, code) == CodeCount(AllFindings(result.documents), code)
  {
    if limit < MIN_BATCH_LIMIT || limit > MAX_BATCH_LIMIT {
      return Err(InvalidLimit);
    }
    var decoded := DecodeCursor(cursor);
    if decoded.Err? {
      return Err(InvalidCursor(decoded.error));
    }
    var position := decoded.value;
    var found := FirstRows(After(rows, Precedes, position, 0), limit + 1);
    var hasMore := |found| > limit;
    var page := FirstRows(found, limit);
    var counters, summaries := AuditPage(page, audit);
    SummariesAreAudits(audit, page);
    PageIsOldestFirst(rows, limit, position);
    NextPosition(rows, limit, position);
    var next := if hasMore && page != [] then EncodeCursor(Some(Last(page))) else None;
    assert TextPage(page, next) == PageOf(rows, limit, cursor).value;
    r := Ok(BatchResult(|summaries|, counters.consistent, counters.transitional, counters.warning, counters.inconsistent,
                        counters.notFound, counters.dependencyUnavailable, counters.findingCounts, summaries, next, hasMore));
  }

  /** The sequential loop over one page. */
  method AuditPage(page: seq<Cursor>, audit: Auditor) returns (counters: BatchCounters, summaries: seq<Summary>)
    ensures fresh(counters) && counters.Counted(summaries)
    ensures summaries == Summaries(audit, page)
  {
    counters := new BatchCounters();
    summaries := [];
    for i := 0 to |page|
      invariant |summaries| == i && forall k :: 0 <= k < i ==> summaries[k] == Summarize(audit, page[k])
      invariant fresh(counters) && counters.Counted(summaries)
    {
      var summary := Summarize(audit, page[i]);
      counters.Record(summary, summaries);
      summaries := summaries + [summary];
    }
  }

  lemma {:induction false} AfterKeepsRows(rows: seq<Cursor>, cursor: Option<Cursor>, i: nat)
    requires i <= |rows| && AllWellFormed(rows)
    ensures AllWellFormed(After(rows, Precedes, cursor, i))
    decreases |rows| - i
  {
    if i < |rows| {
      AfterKeepsRows(rows, cursor, i + 1);
      PrependKeeps(rows[i], After(rows, Precedes, cursor, i + 1));
    }
  }

  lemma PrependKeeps(row: Cursor, rest: seq<Cursor>)
    requires WellFormed(row) && AllWellFormed(rest)
    ensures AllWellFormed([row] + rest)
  {
  }

  // ----- the counts add up -----

  /** The five buckets partition the scanned documents. */
  lemma {:induction false} BucketsAddUp(summaries: seq<Summary>)
    ensures Tally(summaries, ClassConsistent) + Tally(summaries, ClassTransitional) + Tally(summaries, ClassWarning)
            + Tally(summaries, ClassInconsistent) + Tally(summaries, ClassNotFound) == |summaries|
  {
    if summaries != [] {
      BucketsAddUp(summaries[..|summaries| - 1]);
    }
  }

  const CODES := [DocumentMissing, ObjectMissing, StorageInspectionUnavailable, ActiveCollectionMissing, ActiveVectorsMissing,
                  VectorInspectionUnavailable, IndexMetadataIncomplete, IngestionInProgress, StaleIngestionJob,
                  DeletionIsPending, DeletionIsProcessing, DeletionHasPartiallyFailed, VectorCleanupIncomplete,
                  ReindexTargetBuiltNotActivated, ReindexCleanupPending]

  /** The sum of the counts of the first `n` codes. */
  function CountSum(findings: seq<Finding>, n: nat): nat
    requires n <= |CODES|
  {
    if n == 0 then 0 else CountSum(findings, n - 1) + CodeCount(findings, CODES[n - 1])
  }

  lemma {:induction false} SumOfOneMore(findings: seq<Finding>, finding: Finding, n: nat, k: nat)
    requires n <= |CODES| && k < |CODES| && CODES[k] == finding.code
    requires forall i, j :: 0 <= i < j < |CODES| ==> CODES[i] != CODES[j]
    ensures CountSum(findings + [finding], n) == CountSum(findings, n) + if k < n then 1 else 0
  {
    if n > 0 {
      SumOfOneMore(findings, finding, n - 1, k);
      assert (findings + [finding])[..|findings|] == findings;
    }
  }

  lemma IndexOf(code: Code) returns (k: nat)
    ensures k < |CODES| && CODES[k] == code
  {
    match code
    case DocumentMissing => k := 0;
    case ObjectMissing => k := 1;
    case StorageInspectionUnavailable => k := 2;
    case ActiveCollectionMissing => k := 3;
    case ActiveVectorsMissing => k := 4;
    case VectorInspectionUnavailable => k := 5;
    case IndexMetadataIncomplete => k := 6;
    case IngestionInProgress => k := 7;
    case StaleIngestionJob => k := 8;
    case DeletionIsPending => k := 9;
    case DeletionIsProcessing => k := 10;
    case DeletionHasPartiallyFailed => k := 11;
    case VectorCleanupIncomplete => k := 12;
    case ReindexTargetBuiltNotActivated => k := 13;
    case ReindexCleanupPending => k := 14;
  }

  lemma {:induction false} NoFindingsNoCounts(n: nat)
    requires n <= |CODES|
    ensures CountSum([], n) == 0
  {
    if n > 0 {
      NoFindingsNoCounts(n - 1);
    }
  }

  /** The finding counts of a page sum to its total number of findings. */
  lemma {:induction false} FindingCountsAddUp(findings: seq<Finding>)
    ensures CountSum(findings, |CODES|) == |findings|
  {
    if findings == [] {
      NoFindingsNoCounts(|CODES|);
    } else {
      var rest := findings[..|findings| - 1];
      FindingCountsAddUp(rest);
      var k := IndexOf(Last(findings).code);
      SumOfOneMore(rest, Last(findings), |CODES|, k);
      assert findings == rest + [Last(findings)];
    }
  }

  // ----- following the cursors -----

  /** The pages a client gets by following `next` from the start until there is none. */
  ghost predicate TextWalk(rows: seq<Cursor>, limit: int, cursors: seq<Option<string>>, pages: seq<seq<Cursor>>) {
    && MIN_BATCH_LIMIT <= limit <= MAX_BATCH_LIMIT && |cursors| == |pages| && pages != [] && cursors[0] == None
    && forall k :: 0 <= k < |pages| ==> TextFollowed(rows, limit, cursors, pages, k)
  }

  ghost predicate TextFollowed(rows: seq<Cursor>, limit: int, cursors: seq<Option<string>>, pages: seq<seq<Cursor>>, k: nat)
    requires k < |cursors| == |pages|
  {
    && PageOf(rows, limit, cursors[k]) == Ok(TextPage(pages[k], if k + 1 < |cursors| then cursors[k + 1] else None))
    && (k + 1 < |cursors| ==> cursors[k + 1].Some?)
  }

  function Position(text: Option<string>): Option<Cursor> {
    var decoded := DecodeCursor(text);
    if decoded.Ok? then decoded.value else None
  }

  function Positions(cursors: seq<Option<string>>): (r: seq<Option<Cursor>>)
    ensures |r| == |cursors| && forall k :: 0 <= k < |cursors| ==> r[k] == Position(cursors[k])
  {
    seq(|cursors|, k requires 0 <= k < |cursors| => Position(cursors[k]))
  }

  /** A page's next cursor stands for the position it was made from. */
  lemma NextPosition(rows: seq<Cursor>, limit: nat, position: Option<Cursor>)
    requires Table(rows) && limit >= 1
    ensures var next := PageAfter(rows, Precedes, limit, position).next;
            Position(EncodeCursor(next)) == next && (EncodeCursor(next).Some? <==> next.Some?)
  {
    AfterKeepsRows(rows, position, 0);
    var page := PageAfter(rows, Precedes, limit, position);
    if page.next.Some? {
      assert page.next.value == After(rows, Precedes, position, 0)[limit - 1];
      CursorRoundTrip(page.next.value.createdAt, page.next.value.documentId);
    }
  }

  lemma TextStepIsStep(rows: seq<Cursor>, limit: int, cursors: seq<Option<string>>, pages: seq<seq<Cursor>>, k: nat)
    requires Table(rows) && MIN_BATCH_LIMIT <= limit <= MAX_BATCH_LIMIT && k < |cursors| == |pages|
    requires TextFollowed(rows, limit, cursors, pages, k)
    ensures Followed(rows, Precedes, limit, Positions(cursors), pages, k)
  {
    NextPosition(rows, limit, Position(cursors[k]));
  }

  /** Over a fixed table, following the opaque cursors from the start visits every document exactly once and
      in order, in as many pages as the documents fill, and in one empty page when there are none. */
  lemma TextWalkVisitsAll(rows: seq<Cursor>, limit: int, cursors: seq<Option<string>>, pages: seq<seq<Cursor>>)
    requires Table(rows) && TextWalk(rows, limit, cursors, pages)
    ensures Flatten(pages, |pages|) == rows
    ensures (|pages| - 1) * limit < |rows| <= |pages| * limit || (rows == [] && |pages| == 1)
  {
    forall k | 0 <= k < |pages| ensures Followed(rows, Precedes, limit, Positions(cursors), pages, k) {
      TextStepIsStep(rows, limit, cursors, pages, k);
    }
    TableIsOrdered(rows);
    WalkVisitsAll(rows, Precedes, limit, Positions(cursors), pages);
  }

  function Texts(positions: seq<Option<Cursor>>): (r: seq<Option<string>>)
    ensures |r| == |positions| && forall k :: 0 <= k < |positions| ==> r[k] == EncodeCursor(positions[k])
  {
    seq(|positions|, k requires 0 <= k < |positions| => EncodeCursor(positions[k]))
  }

  /** Such a walk always comes to an end, without a cursor ever being refused. */
  lemma TextWalkEnds(rows: seq<Cursor>, limit: int) returns (cursors: seq<Option<string>>, pages: seq<seq<Cursor>>)
    requires Table(rows) && MIN_BATCH_LIMIT <= limit <= MAX_BATCH_LIMIT
    ensures TextWalk(rows, limit, cursors, pages)
  {
    TableIsOrdered(rows);
    var positions;
    positions, pages := WalkFrom(rows, Precedes, limit, 0);
    cursors := Texts(positions);
    forall k | 0 <= k < |pages| ensures TextFollowed(rows, limit, cursors, pages, k) {
      StepIsTextStep(rows, limit, positions, pages, k);
    }
  }

  lemma StepIsTextStep(rows: seq<Cursor>, limit: int, positions: seq<Option<Cursor>>, pages: seq<seq<Cursor>>, k: nat)
    requires Table(rows) && MIN_BATCH_LIMIT <= limit <= MAX_BATCH_LIMIT && k < |positions| == |pages| && positions[0] == None
    requires forall j :: 0 <= j < |pages| ==> Followed(rows, Precedes, limit, positions, pages, j)
    ensures TextFollowed(rows, limit, Texts(positions), pages, k)
  {
    assert Followed(rows, Precedes, limit, positions, pages, k);
    if k > 0 {
      assert Followed(rows, Precedes, limit, positions, pages, k - 1);
      NextPosition(rows, limit, positions[k - 1]);
    }
    NextPosition(rows, limit, positions[k]);
  }
}

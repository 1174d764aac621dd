/** The audit reads the document, its job rows and the providers one after the other: exactly when it reports an
    error, and exactly when that is a false alarm on a healthy document. */
module AuditRaces {
  import opened DocumentRecord
  import opened Catalogue
  import opened Health
  import opened Audit

  /** When the reads that decide about errors take place, as indexes into a run: the document row, its latest ingestion
      and deletion rows, object storage, Qdrant. */
  datatype ReadTimes = ReadTimes(document: nat, ingestion: nat, deletion: nat, storage: nat, vectors: nat)

  predicate InOrder(t: ReadTimes, n: nat) {
    t.document <= t.ingestion <= t.deletion <= t.storage <= t.vectors < n
  }

  /** The rows the audit has put together, from different states. */
  function Gathered(states: seq<System>, t: ReadTimes, d: nat): Record
    requires InOrder(t, |states|) && d < |states[t.document].docs|
    requires d < |states[t.ingestion].docs| && d < |states[t.deletion].docs|
  {
    states[t.document].docs[d].(ingestion := states[t.ingestion].docs[d].ingestion,
                                deletion := states[t.deletion].docs[d].deletion)
  }

  /** Both providers are reachable and answer from the state there is when they are asked. */
  predicate TruthfulThen(states: seq<System>, t: ReadTimes, d: nat, storage: StorageProbe, vectors: VectorProbe)
    requires InOrder(t, |states|) && d < |states[t.document].docs|
    requires d < |states[t.storage].docs| && d < |states[t.vectors].docs|
  {
    && storage == ObjectSeen(EnvOf(states[t.storage], d).stored)
    && (states[t.document].docs[d].collection.Some? ==>
          var points, c := states[t.vectors].docs[d].points, states[t.document].docs[d].collection.value;
          match vectors
          case Counted(count) => count == |PointsIn(points, c)|
          case NoCollection => !Held(points, c)
          case _ => false)
  }

  lemma AllThere(states: seq<System>, steps: seq<Step>, t: ReadTimes, d: nat)
    requires Run(states, steps) && InOrder(t, |states|) && d < |states[t.document].docs|
    ensures d < |states[t.ingestion].docs| && d < |states[t.deletion].docs|
    ensures d < |states[t.storage].docs| && d < |states[t.vectors].docs|
    ensures |states[t.deletion].docs[d].deletion| <= |states[t.vectors].docs[d].deletion|
    ensures |states[t.storage].docs[d].deletion| <= |states[t.vectors].docs[d].deletion|
  {
    DocsStay(states, steps, t.document, t.ingestion, d);
    DocsStay(states, steps, t.ingestion, t.deletion, d);
    DocsStay(states, steps, t.deletion, t.storage, d);
    DocsStay(states, steps, t.storage, t.vectors, d);
  }

  /** First indexed between the read of the document row and that of its latest ingestion row. */
  predicate IndexedMeanwhile(r: Record) {
    r.collection.None? && LatestIngestion(r, Completed)
  }

  lemma GatheredCodes(r: Record, stale: bool, storage: StorageProbe, vectors: VectorProbe, code: Code)
    requires r.collection.Some? <==> r.metadata.Some?
    ensures SeverityOf(code) == Error && Reports(r, stale, storage, vectors, code) <==>
              || (code == IndexMetadataIncomplete && IndexedMeanwhile(r))
              || ((code.ObjectMissing? || code.ActiveCollectionMissing? || code.ActiveVectorsMissing?)
                  && ProviderReports(r, storage, vectors, code))
  {
  }

  /** What the audit calls inconsistent, whatever happened between its reads. */
  lemma GatheredErrorIsExact(states: seq<System>, steps: seq<Step>, t: ReadTimes, d: nat, stale: bool,
                             storage: StorageProbe, vectors: VectorProbe)
    requires Run(states, steps) && InOrder(t, |states|) && d < |states[t.document].docs|
    ensures d < |states[t.ingestion].docs| && d < |states[t.deletion].docs|
    ensures d < |states[t.storage].docs| && d < |states[t.vectors].docs|
    ensures TruthfulThen(states, t, d, storage, vectors) ==>
              var r, points := Gathered(states, t, d), states[t.vectors].docs[d].points;
              ReportsError(r, stale, storage, vectors) <==>
                || IndexedMeanwhile(r)
                || (!LatestDeletion(r, DeletionCompleted)
                    && (!EnvOf(states[t.storage], d).stored || (r.collection.Some? && !Held(points, r.collection.value))))
  {
    AllThere(states, steps, t, d);
    if TruthfulThen(states, t, d, storage, vectors) {
      RunInv(states, steps, t.document, d);
      var r, points := Gathered(states, t, d), states[t.vectors].docs[d].points;
      forall code ensures SeverityOf(code) == Error && Reports(r, stale, storage, vectors, code) <==>
                            || (code == IndexMetadataIncomplete && IndexedMeanwhile(r))
                            || ((code.ObjectMissing? || code.ActiveCollectionMissing? || code.ActiveVectorsMissing?)
                                && ProviderReports(r, storage, vectors, code))
      {
        GatheredCodes(r, stale, storage, vectors, code);
      }
      Witnesses(r, points, EnvOf(states[t.storage], d).stored, stale, storage, vectors);
    }
  }

  lemma Witnesses(r: Record, points: map<Collection, set<nat>>, stored: bool, stale: bool, storage: StorageProbe, vectors: VectorProbe)
    requires r.collection.Some? <==> r.metadata.Some?
    requires storage == ObjectSeen(stored)
    requires r.collection.Some? ==>
               match vectors
               case Counted(count) => count == |PointsIn(points, r.collection.value)|
               case NoCollection => !Held(points, r.collection.value)
               case _ => false
    ensures IndexedMeanwhile(r) ==> Reports(r, stale, storage, vectors, IndexMetadataIncomplete)
    ensures !LatestDeletion(r, DeletionCompleted) && !stored ==> Reports(r, stale, storage, vectors, ObjectMissing)
    ensures !LatestDeletion(r, DeletionCompleted) && r.collection.Some? && !Held(points, r.collection.value) ==>
              Reports(r, stale, storage, vectors, if vectors.NoCollection? then ActiveCollectionMissing else ActiveVectorsMissing)
  {
  }

  /** In a run without a return to a vacated collection, an audit of a document nobody has asked to delete by its end
      reports an error exactly if the document was first indexed between the first two reads, or had left the
      collection it was read with and that was emptied by the time Qdrant was asked: a false alarm each time. */
  lemma FalseAlarmIsExact(states: seq<System>, steps: seq<Step>, t: ReadTimes, d: nat, stale: bool,
                          storage: StorageProbe, vectors: VectorProbe)
    requires Run(states, steps) && InOrder(t, |states|) && d < |states[t.document].docs|
    requires forall k :: 0 <= k < t.vectors ==> NoReturnStep(states[k], steps[k])
    ensures d < |states[t.ingestion].docs| && d < |states[t.deletion].docs|
    ensures d < |states[t.storage].docs| && d < |states[t.vectors].docs|
    ensures TruthfulThen(states, t, d, storage, vectors) && states[t.vectors].docs[d].deletion == [] ==>
              var r, last := Gathered(states, t, d), states[t.vectors].docs[d];
              ReportsError(r, stale, storage, vectors) <==>
                || IndexedMeanwhile(r)
                || (r.collection.Some? && last.collection != r.collection && !Held(last.points, r.collection.value))
  {
    GatheredErrorIsExact(states, steps, t, d, stale, storage, vectors);
    AllThere(states, steps, t, d);
    if states[t.vectors].docs[d].deletion == [] {
      RunInv(states, steps, t.storage, d);
      NoReturnRunServes(states, steps, t.vectors, d);
    }
  }
}

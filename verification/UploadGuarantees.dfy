/** What deduplicated uploads guarantee over whole runs. */
module UploadGuarantees {
  import opened Wrappers
  import opened DocumentRecord
  import opened Invariant
  import opened Catalogue

  predicate Holds(s: System, d: nat, hash: Digest) {
    d < |s.docs| && s.docs[d].hash == Some(hash)
  }

  /** At most one document holds a digest, every stored key has an owner, and a document that still holds
      its digest has the bytes of that digest under its key. */
  lemma UploadsAreDeduplicated(states: seq<System>, steps: seq<Step>, i: nat, hash: Digest, a: nat, b: nat)
    requires Run(states, steps) && i < |states| && a < |states[i].docs| && b < |states[i].docs|
    ensures states[i].docs[a].hash == Some(hash) && states[i].docs[b].hash == Some(hash) ==> a == b
    ensures forall key :: key in states[i].storage ==> Owned(states[i], key)
    ensures states[i].docs[a].hash == Some(hash) && states[i].docs[a].deletion == [] ==>
              states[i].docs[a].key in states[i].storage && states[i].storage[states[i].docs[a].key] == hash
  {
    RunKeeps(states, steps, i);
    RunInv(states, steps, i, a);
  }

  // ----- the decision -----

  lemma HolderIsFound(s: System, hash: Digest, d: nat)
    requires HashesUnique(s.docs) && Holds(s, d, hash)
    ensures FindByHash(s.docs, hash) == Some(d)
  {
  }

  /** If the three reads of a decision all see one reachable state, the decision for a held digest names its
      holder: an indexed document without a deletion is reused as indexed, one still being ingested as active, one
      whose ingestion failed as failed; a deletion under way or partially failed blocks. Neither defensive error
      is raised. */
  lemma DecisionNamesHolder(s: System, hash: Digest, d: nat)
    requires HashesUnique(s.docs) && Holds(s, d, hash) && Inv(s.docs[d], EnvOf(s, d))
    ensures var decision, r := DecideUpload(s.docs, hash), s.docs[d];
            && !decision.Create? && !decision.RaiseDeletionInvariantViolation? && !decision.RaiseNoIngestionJob?
            && decision.doc == d
            && (decision.ReuseIndexed? <==> r.deletion == [] && r.collection.Some?)
            && (decision.ReuseActive? <==> r.deletion == [] && IngestionActive(r.ingestion))
            && (decision.ReuseFailed? <==> r.deletion == [] && r.collection.None? && !IngestionActive(r.ingestion))
            && (decision.RaiseDeletionActive? <==> DeletionActive(r.deletion))
            && (decision.RaiseDeletionIncomplete? <==> r.deletion != [] && !DeletionActive(r.deletion))
  {
    HolderIsFound(s, hash, d);
    var r := s.docs[d];
    assert Erased(r.deletion, r.points, r.hash, EnvOf(s, d).stored);
    assert Indexed(r.collection, r.metadata, r.ingestion, s.catalog, EnvOf(s, d).stored);
    assert Kept(r.deletion, r.hash, EnvOf(s, d).stored);
    if r.deletion != [] {
      LatestDecides(r.deletion);
    }
  }

  lemma LatestDecides(deletion: seq<DeletionJob>)
    requires DeletionRows(deletion) && deletion != []
    ensures DeletionActive(deletion) <==> ActiveDeletion(Last(deletion).status)
    ensures Last(deletion).status == DeletionCompleted ==> DeletionDone(deletion)
  {
    if ActiveDeletion(Last(deletion).status) {
      assert ActiveDeletion(deletion[|deletion| - 1].status);
    }
    assert Last(deletion) == deletion[|deletion| - 1];
  }

  // ----- what the three reads of a decision add up to -----

  predicate By(step: Step, q: nat) {
    !step.Touch? && step.request == q
  }

  /** Step `i` is a look of request `q` for the digest, and it finds document `d`. */
  predicate LooksUp(s: System, step: Step, q: nat, hash: Digest, d: nat) {
    && (step == BeginUpload(q, hash) || (step == LookAgain(q) && q in s.uploads && s.uploads[q] == ToRedecide(hash)))
    && FindByHash(s.docs, hash) == Some(d)
  }

  lemma FoundThroughStep(s: System, step: Step, q: nat)
    requires CanStep(s, step) && q in Next(s, step).uploads && Next(s, step).uploads[q].Found?
    ensures var u := Next(s, step).uploads[q];
            if By(step, q) then LooksUp(s, step, q, u.hash, u.doc) else q in s.uploads && s.uploads[q] == u
  {
  }

  lemma ClearedThroughStep(s: System, step: Step, q: nat)
    requires CanStep(s, step) && q in Next(s, step).uploads && Next(s, step).uploads[q].NotDeleted?
    ensures var u := Next(s, step).uploads[q];
            if By(step, q) then
              step == ReadDeletionState(q) && q in s.uploads && s.uploads[q] == Found(u.hash, u.doc, u.again)
              && u.doc < |s.docs| && s.docs[u.doc].deletion == []
            else q in s.uploads && s.uploads[q] == u
  {
  }

  /** A request that has found a document did so by its last own step. */
  lemma {:induction false} FoundByLook(states: seq<System>, steps: seq<Step>, k: nat, q: nat) returns (i: nat)
    requires Run(states, steps) && k < |states| && q in states[k].uploads && states[k].uploads[q].Found?
    ensures i < k && LooksUp(states[i], steps[i], q, states[k].uploads[q].hash, states[k].uploads[q].doc)
    ensures forall m :: i < m < k ==> !By(steps[m], q)
  {
    assert k > 0;
    assert StepAt(states, steps, k - 1);
    FoundThroughStep(states[k - 1], steps[k - 1], q);
    if By(steps[k - 1], q) {
      i := k - 1;
    } else {
      i := FoundByLook(states, steps, k - 1, q);
    }
  }

  lemma {:induction false} ClearedByRead(states: seq<System>, steps: seq<Step>, k: nat, q: nat) returns (m: nat)
    requires Run(states, steps) && k < |states| && q in states[k].uploads && states[k].uploads[q].NotDeleted?
    ensures var u := states[k].uploads[q];
            && m < k && steps[m] == ReadDeletionState(q)
            && q in states[m].uploads && states[m].uploads[q] == Found(u.hash, u.doc, u.again)
            && u.doc < |states[m].docs| && states[m].docs[u.doc].deletion == []
    ensures forall l :: m < l < k ==> !By(steps[l], q)
  {
    assert k > 0;
    assert StepAt(states, steps, k - 1);
    ClearedThroughStep(states[k - 1], steps[k - 1], q);
    if By(steps[k - 1], q) {
      m := k - 1;
    } else {
      m := ClearedByRead(states, steps, k - 1, q);
    }
  }

  /** The document found held the digest then, alone, and its deletion had not completed. */
  lemma LookFindsHolder(states: seq<System>, steps: seq<Step>, i: nat, q: nat, hash: Digest, d: nat)
    requires Run(states, steps) && i < |steps| && LooksUp(states[i], steps[i], q, hash, d)
    ensures Holds(states[i], d, hash) && !DeletionDone(states[i].docs[d].deletion)
    ensures forall e: nat :: Holds(states[i], e, hash) ==> e == d
  {
    RunKeeps(states, steps, i);
    RunInv(states, steps, i, d);
    assert Erased(states[i].docs[d].deletion, states[i].docs[d].points, states[i].docs[d].hash, EnvOf(states[i], d).stored);
  }

  predicate LatestDone(deletion: seq<DeletionJob>) {
    deletion != [] && Last(deletion).status == DeletionCompleted
  }

  /** The broken-invariant error is raised exactly when the latest deletion row of the document found at the
      lookup is COMPLETED at the second read. That deletion completed between the two reads, so nothing is
      broken: the error reports a race. */
  lemma InvariantErrorIsExact(states: seq<System>, steps: seq<Step>, k: nat, q: nat) returns (i: nat)
    requires Run(states, steps) && k < |steps| && steps[k] == ReadDeletionState(q)
    ensures CanStep(states[k], steps[k]) && q in states[k].uploads && states[k].uploads[q].Found?
    ensures var u := states[k].uploads[q];
            && i < k && LooksUp(states[i], steps[i], q, u.hash, u.doc) && Holds(states[i], u.doc, u.hash)
            && (forall m :: i < m < k ==> !By(steps[m], q))
            && u.doc < |states[k].docs|
            && (Answer(states[k], steps[k]) == Some(RaiseDeletionInvariantViolation(u.doc)) <==>
                  LatestDone(states[k].docs[u.doc].deletion))
            && !DeletionDone(states[i].docs[u.doc].deletion)
            && (LatestDone(states[k].docs[u.doc].deletion) ==> DeletionDone(states[k].docs[u.doc].deletion))
    ensures var u := states[k].uploads[q];
            var deletion, answer := states[k].docs[u.doc].deletion, Answer(states[k], steps[k]);
            && (answer == None <==> deletion == [])
            && (answer == Some(RaiseDeletionActive(u.doc)) <==>
                  deletion != [] && (Last(deletion).status == DeletionPending || Last(deletion).status == DeletionProcessing))
            && (answer == Some(RaiseDeletionIncomplete(u.doc)) <==>
                  deletion != [] && Last(deletion).status == DeletionPartiallyFailed)
  {
    assert StepAt(states, steps, k);
    i := FoundByLook(states, steps, k, q);
    var u := states[k].uploads[q];
    LookFindsHolder(states, steps, i, q, u.hash, u.doc);
    if LatestDone(states[k].docs[u.doc].deletion) {
      assert states[k].docs[u.doc].deletion[|states[k].docs[u.doc].deletion| - 1].status == DeletionCompleted;
    }
  }

  /** No other step raises it. */
  lemma OnlyTheSecondReadRaises(s: System, step: Step, d: nat)
    requires CanStep(s, step) && Answer(s, step) == Some(RaiseDeletionInvariantViolation(d))
    ensures step.ReadDeletionState? && s.uploads[step.request].doc == d
  {
  }

  /** Every document a decision returns held the digest, alone, when it was looked up; it had no deletion row
      when that was read, and so still held the digest and had its bytes stored. The answer is the latest ingestion
      row's, and the missing-job error is never raised. */
  lemma ReturnedDocumentHolds(states: seq<System>, steps: seq<Step>, k: nat, q: nat) returns (i: nat, m: nat)
    requires Run(states, steps) && k < |steps| && steps[k] == ReadIngestionState(q)
    ensures CanStep(states[k], steps[k]) && q in states[k].uploads && states[k].uploads[q].NotDeleted?
    ensures var u := states[k].uploads[q];
            && i < m < k && LooksUp(states[i], steps[i], q, u.hash, u.doc)
            && Holds(states[i], u.doc, u.hash) && (forall e: nat :: Holds(states[i], e, u.hash) ==> e == u.doc)
            && steps[m] == ReadDeletionState(q) && Holds(states[m], u.doc, u.hash) && states[m].docs[u.doc].deletion == []
            && states[m].docs[u.doc].key in states[m].storage && states[m].storage[states[m].docs[u.doc].key] == u.hash
            && (forall l :: i < l < k && l != m ==> !By(steps[l], q))
    ensures var u, answer := states[k].uploads[q], Answer(states[k], steps[k]);
            && u.doc < |states[k].docs| && states[k].docs[u.doc].ingestion != []
            && var status := Last(states[k].docs[u.doc].ingestion).status;
            && (answer == Some(ReuseActive(u.doc)) <==> ActiveJob(status))
            && (answer == Some(ReuseIndexed(u.doc)) <==> status == Completed)
            && (answer == Some(ReuseFailed(u.doc)) <==> status == Failed)
  {
    assert StepAt(states, steps, k);
    var u := states[k].uploads[q];
    m := ClearedByRead(states, steps, k, q);
    i := FoundByLook(states, steps, m, q);
    LookFindsHolder(states, steps, i, q, u.hash, u.doc);
    StillHolds(states, steps, i, m, u.doc, u.hash);
    RunInv(states, steps, k, u.doc);
  }

  /** Without a deletion row a document keeps its digest and the bytes of it. */
  lemma StillHolds(states: seq<System>, steps: seq<Step>, i: nat, m: nat, d: nat, hash: Digest)
    requires Run(states, steps) && i <= m < |states| && Holds(states[i], d, hash)
    requires d < |states[m].docs| && states[m].docs[d].deletion == []
    ensures Holds(states[m], d, hash)
    ensures states[m].docs[d].key in states[m].storage && states[m].storage[states[m].docs[d].key] == hash
  {
    HashOnlyReleased(states, steps, i, m, d);
    RunInv(states, steps, m, d);
    assert Kept(states[m].docs[d].deletion, states[m].docs[d].hash, EnvOf(states[m], d).stored);
    UploadsAreDeduplicated(states, steps, m, hash, d, d);
  }

  /** An uninterrupted decision answers as if its reads were one. */
  lemma UninterruptedDecision(s: System, q: nat, hash: Digest)
    requires CanStep(s, BeginUpload(q, hash)) && DecideUpload(s.docs, hash) != Create
    ensures var s1 := Next(s, BeginUpload(q, hash));
            && CanStep(s1, ReadDeletionState(q))
            && var first := Answer(s1, ReadDeletionState(q));
            if first.Some? then first == Some(DecideUpload(s.docs, hash))
            else
              var s2 := Next(s1, ReadDeletionState(q));
              CanStep(s2, ReadIngestionState(q)) && Answer(s2, ReadIngestionState(q)) == Some(DecideUpload(s.docs, hash))
  {
  }

  // ----- when the loser of a race finds nobody -----

  lemma HashThroughStep(s: System, step: Step, d: nat)
    requires CanStep(s, step) && d < |s.docs|
    ensures d < |Next(s, step).docs|
    ensures Next(s, step).docs[d].hash == s.docs[d].hash || Next(s, step).docs[d].hash == None
  {
    if step.Touch? && step.doc == d {
      SegmentIdentity(s.docs[d], step.step, EnvOf(s, d));
    }
  }

  lemma {:induction false} HashOnlyReleased(states: seq<System>, steps: seq<Step>, i: nat, j: nat, d: nat)
    requires Run(states, steps) && i <= j < |states| && d < |states[i].docs|
    ensures d < |states[j].docs|
    ensures states[j].docs[d].hash == states[i].docs[d].hash || states[j].docs[d].hash == None
    decreases j
  {
    if i < j {
      HashOnlyReleased(states, steps, i, j - 1, d);
      assert StepAt(states, steps, j - 1);
      HashThroughStep(states[j - 1], steps[j - 1], d);
    }
  }

  /** Document `d` held the digest in some state up to the `j`-th. */
  ghost predicate HeldBy(states: seq<System>, j: nat, d: nat, hash: Digest)
    requires j < |states|
  {
    exists i :: 0 <= i <= j && Holds(states[i], d, hash)
  }

  /** A document that has held the digest still does, unless its deletion has completed. */
  lemma PastHolder(states: seq<System>, steps: seq<Step>, j: nat, d: nat, hash: Digest)
    requires Run(states, steps) && j < |states| && HeldBy(states, j, d, hash)
    ensures d < |states[j].docs|
    ensures Holds(states[j], d, hash) <==> !DeletionDone(states[j].docs[d].deletion)
  {
    var i :| 0 <= i <= j && Holds(states[i], d, hash);
    HashOnlyReleased(states, steps, i, j, d);
    RunInv(states, steps, j, d);
  }

  /** In any run, nobody is found for a digest exactly when every document that ever held it, a winner of a
      race included, has been completely deleted by then. */
  lemma NobodyFoundIsExact(states: seq<System>, steps: seq<Step>, j: nat, hash: Digest)
    requires Run(states, steps) && j < |states|
    ensures FindByHash(states[j].docs, hash) == None <==>
              forall d: nat :: HeldBy(states, j, d, hash) ==> d < |states[j].docs| && DeletionDone(states[j].docs[d].deletion)
  {
    var s := states[j];
    forall d: nat | HeldBy(states, j, d, hash)
      ensures d < |s.docs| && (Holds(s, d, hash) <==> !DeletionDone(s.docs[d].deletion))
    {
      PastHolder(states, steps, j, d, hash);
    }
    var found := FindByHash(s.docs, hash);
    if found.Some? {
      assert Holds(s, found.value, hash) && HeldBy(states, j, found.value, hash);
    }
  }

  // ----- what one request adds -----

  /** Request `q` has lost a race for the digest and not ended yet. */
  predicate Lost(s: System, q: nat, hash: Digest) {
    && q in s.uploads
    && (match s.uploads[q]
        case LostRace(h, _) => h == hash
        case ToRedecide(h) => h == hash
        case Found(h, _, again) => h == hash && again
        case NotDeleted(h, _, again) => h == hash && again
        case _ => false)
  }

  lemma LostStaysLost(s: System, step: Step, q: nat, hash: Digest)
    requires CanStep(s, step) && Lost(s, q, hash)
    ensures q in Next(s, step).uploads ==> Lost(Next(s, step), q, hash)
    ensures By(step, q) ==> Next(s, step).docs == s.docs
  {
  }

  lemma {:induction false} StillLost(states: seq<System>, steps: seq<Step>, i: nat, k: nat, q: nat, hash: Digest)
    requires Run(states, steps) && i <= k < |states| && Lost(states[i], q, hash)
    requires forall m :: i <= m <= k ==> q in states[m].uploads
    ensures Lost(states[k], q, hash)
    decreases k
  {
    if i < k {
      StillLost(states, steps, i, k - 1, q, hash);
      assert StepAt(states, steps, k - 1);
      LostStaysLost(states[k - 1], steps[k - 1], q, hash);
    }
  }

  /** From losing its race until it ends, an upload adds no document, whatever happens in between. */
  lemma LosersAddNothing(states: seq<System>, steps: seq<Step>, i: nat, k: nat, q: nat, hash: Digest)
    requires Run(states, steps) && i <= k < |steps| && Lost(states[i], q, hash)
    requires forall m :: i <= m <= k ==> q in states[m].uploads
    requires By(steps[k], q)
    ensures states[k + 1].docs == states[k].docs
  {
    StillLost(states, steps, i, k, q, hash);
    assert StepAt(states, steps, k);
    LostStaysLost(states[k], steps[k], q, hash);
  }

  /** Request `q`'s step adds a document. */
  predicate Adds(states: seq<System>, steps: seq<Step>, k: nat, q: nat)
    requires |states| == |steps| + 1 && k < |steps|
  {
    By(steps[k], q) && states[k + 1].docs != states[k].docs
  }

  /** A document that appears is the committing request's own, and nobody held its digest. */
  lemma AddedOnce(states: seq<System>, steps: seq<Step>, k: nat, q: nat)
    requires Run(states, steps) && k < |steps| && Adds(states, steps, k, q)
    ensures q in states[k].uploads && states[k].uploads[q].ToCommit? && q !in states[k + 1].uploads
    ensures |states[k + 1].docs| == |states[k].docs| + 1 && states[k].docs < states[k + 1].docs
    ensures var hash := states[k].uploads[q].hash;
            && Holds(states[k + 1], |states[k].docs|, hash)
            && forall d: nat :: !Holds(states[k], d, hash)
  {
    assert StepAt(states, steps, k);
  }

  /** A commit goes through exactly when nobody holds the digest, and then adds a document that holds it: its
      bytes are stored under the request's own key, and it has one PENDING ingestion row and nothing else.
      Otherwise the request has lost the race, and no document changes. */
  lemma CommitIsExact(states: seq<System>, steps: seq<Step>, k: nat, q: nat)
    requires Run(states, steps) && k < |steps| && steps[k] == CommitUpload(q)
    ensures CanStep(states[k], steps[k]) && q in states[k].uploads && states[k].uploads[q].ToCommit?
    ensures var s, s', u := states[k], states[k + 1], states[k].uploads[q];
            && u.key in s.storage && s.storage[u.key] == u.hash && s'.storage == s.storage
            && (forall d: nat :: d < |s.docs| ==> s.docs[d].key != u.key)
            && if exists d: nat :: Holds(s, d, u.hash) then
                 s'.docs == s.docs && s'.uploads == s.uploads[q := LostRace(u.hash, u.key)] && Answer(s, steps[k]) == None
               else
                 && |s'.docs| == |s.docs| + 1 && s'.docs[..|s.docs|] == s.docs && Uploaded(Last(s'.docs), u.key, u.hash)
                 && s'.uploads == s.uploads - {q} && Answer(s, steps[k]) == Some(Create)
  {
    assert StepAt(states, steps, k);
    RunKeeps(states, steps, k);
    var s := states[k];
    var found := FindByHash(s.docs, s.uploads[q].hash);
    if found.Some? {
      assert Holds(s, found.value, s.uploads[q].hash);
    }
  }

  /** A document as it is when its upload ends. */
  predicate Uploaded(r: Record, key: Key, hash: Digest) {
    && r.key == key && r.hash == Some(hash)
    && r.collection.None? && r.metadata.None? && r.points == map[]
    && |r.ingestion| == 1 && r.ingestion[0].status == Pending
    && r.reindex == [] && r.cleanup == [] && r.deletion == []
  }

  /** Whatever went before, an upload of a digest nobody holds can save its bytes under a new key and commit. */
  lemma FreshUploadCreates(s: System, q: nat, hash: Digest, key: Key)
    requires q !in s.uploads && key !in s.issued && forall d: nat :: !Holds(s, d, hash)
    ensures CanStep(s, BeginUpload(q, hash))
    ensures var begun := Next(s, BeginUpload(q, hash));
            && CanStep(begun, SaveObject(q, key))
            && var saved := Next(begun, SaveObject(q, key));
               && CanStep(saved, CommitUpload(q)) && Answer(saved, CommitUpload(q)) == Some(Create)
               && var after := Next(saved, CommitUpload(q));
                  && |after.docs| == |s.docs| + 1 && after.docs[..|s.docs|] == s.docs && Uploaded(Last(after.docs), key, hash)
                  && after.storage == s.storage[key := hash] && after.uploads == s.uploads
  {
    var found := FindByHash(s.docs, hash);
    if found.Some? {
      assert Holds(s, found.value, hash);
    }
  }

  /** A request that could not commit deletes at most its own object, and never that of a document. */
  lemma OwnObjectIsDeleted(states: seq<System>, steps: seq<Step>, k: nat, q: nat, ok: bool)
    requires Run(states, steps) && k < |steps| && steps[k] == DeleteOwnObject(q, ok)
    ensures CanStep(states[k], steps[k]) && q in states[k].uploads && HasKey(states[k].uploads[q])
    ensures var s, s', u := states[k], states[k + 1], states[k].uploads[q];
            && (forall key :: key in s'.storage <==> key in s.storage && !(ok && key == u.key))
            && (forall key :: key in s'.storage ==> s'.storage[key] == s.storage[key])
            && s'.docs == s.docs && (u.LostRace? ==> s'.uploads == s.uploads[q := ToRedecide(u.hash)])
            && forall d: nat :: d < |s.docs| ==>
                 s.docs[d].key != u.key && (s.docs[d].key in s'.storage <==> s.docs[d].key in s.storage)
  {
    assert StepAt(states, steps, k);
    RunKeeps(states, steps, k);
  }

  lemma GoneUntilBegun(s: System, step: Step, q: nat)
    requires CanStep(s, step) && q !in s.uploads && q in Next(s, step).uploads
    ensures step.BeginUpload? && step.request == q
  {
  }

  lemma {:induction false} BeginsAgain(states: seq<System>, steps: seq<Step>, i: nat, k: nat, q: nat) returns (m: nat)
    requires Run(states, steps) && i <= k < |states| && q !in states[i].uploads && q in states[k].uploads
    ensures i <= m < k && steps[m].BeginUpload? && steps[m].request == q
    decreases k
  {
    assert StepAt(states, steps, k - 1);
    if q in states[k - 1].uploads {
      m := BeginsAgain(states, steps, i, k - 1, q);
    } else {
      GoneUntilBegun(states[k - 1], steps[k - 1], q);
      m := k - 1;
    }
  }

  /** An upload request adds at most one document: between two it must have begun anew. */
  lemma OneDocumentPerUpload(states: seq<System>, steps: seq<Step>, i: nat, k: nat, q: nat) returns (m: nat)
    requires Run(states, steps) && i < k < |steps| && Adds(states, steps, i, q) && Adds(states, steps, k, q)
    ensures i < m < k && steps[m].BeginUpload? && steps[m].request == q
  {
    AddedOnce(states, steps, i, q);
    AddedOnce(states, steps, k, q);
    m := BeginsAgain(states, steps, i + 1, k, q);
  }

  // ----- a lost race had a winner -----

  lemma LosingHasWinner(s: System, step: Step, q: nat, hash: Digest)
    requires CanStep(s, step) && !Lost(s, q, hash) && Lost(Next(s, step), q, hash)
    ensures exists d: nat :: Holds(s, d, hash)
  {
    var found := FindByHash(s.docs, hash);
    assert found.Some?;
    assert Holds(s, found.value, hash);
  }

  lemma {:induction false} LoserHadWinner(states: seq<System>, steps: seq<Step>, j: nat, q: nat, hash: Digest)
    requires Run(states, steps) && j < |states| && Lost(states[j], q, hash)
    ensures exists d: nat :: HeldBy(states, j, d, hash)
  {
    assert j > 0;
    assert StepAt(states, steps, j - 1);
    if Lost(states[j - 1], q, hash) {
      LoserHadWinner(states, steps, j - 1, q, hash);
      var d: nat :| HeldBy(states, j - 1, d, hash);
      assert HeldBy(states, j, d, hash);
    } else {
      LosingHasWinner(states[j - 1], steps[j - 1], q, hash);
      var d: nat :| Holds(states[j - 1], d, hash);
      assert HeldBy(states, j, d, hash);
    }
  }

  /** The loser of a race always had a winner, and its second look finds nobody, which raises the missing
      winner error, exactly when every document that held the digest has been completely deleted by then. */
  lemma MissingWinnerIsExact(states: seq<System>, steps: seq<Step>, j: nat, q: nat)
    requires Run(states, steps) && j < |steps| && steps[j] == LookAgain(q)
    ensures CanStep(states[j], steps[j]) && q in states[j].uploads && states[j].uploads[q].ToRedecide?
    ensures var hash := states[j].uploads[q].hash;
            && (exists d: nat :: HeldBy(states, j, d, hash))
            && (Answer(states[j], steps[j]) == Some(RaiseMissingWinner) <==>
                  forall d: nat :: HeldBy(states, j, d, hash) ==> d < |states[j].docs| && DeletionDone(states[j].docs[d].deletion))
  {
    assert StepAt(states, steps, j);
    var hash := states[j].uploads[q].hash;
    LoserHadWinner(states, steps, j, q, hash);
    NobodyFoundIsExact(states, steps, j, hash);
  }
}

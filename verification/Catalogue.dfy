/** All documents together: uploads in flight, object storage, the shared index_collections table, and
    the runs of the whole system. A document's id is its index. */
module Catalogue {
  import opened Wrappers
  import opened DocumentRecord
  import opened Steps
  import opened Frames
  import opened Invariant
  import opened Settlement

  /** Where an upload request stands. A request that dies after its save simply stays where it is. `again`
      tells the second look of a request that lost its race from the first look. */
  datatype Upload =
    | ToSave(hash: Digest)
    | ToCommit(hash: Digest, key: Key)
    | LostRace(hash: Digest, key: Key)
    | CommitFailed(key: Key)
    | ToRedecide(hash: Digest)
    | Found(hash: Digest, doc: nat, again: bool)
    | NotDeleted(hash: Digest, doc: nat, again: bool)

  /** `storage` maps a key to the digest of the stored bytes, `leftovers` are the keys whose best-effort
      delete failed, and `issued` every key ever generated. */
  datatype System = System(
    docs: seq<Record>,
    storage: map<Key, Digest>,
    catalog: map<Collection, Metadata>,
    uploads: map<nat, Upload>,
    leftovers: set<Key>,
    issued: set<Key>
  )

  const EMPTY := System([], map[], map[], map[], {}, {})

  datatype Step =
    | Touch(doc: nat, step: DocStep)
    | BeginUpload(request: nat, hash: Digest)
    | SaveObject(request: nat, key: Key)
    | CommitUpload(request: nat)
    | RejectCommit(request: nat)
    | DeleteOwnObject(request: nat, ok: bool)
    | LookAgain(request: nat)
    | ReadDeletionState(request: nat)
    | ReadIngestionState(request: nat)
    | EndUpload(request: nat)

  // ----- the deduplication decision -----

  datatype UploadDecision =
    | Create
    | RaiseMissingWinner
    | ReuseActive(doc: nat)
    | ReuseIndexed(doc: nat)
    | ReuseFailed(doc: nat)
    | RaiseDeletionActive(doc: nat)
    | RaiseDeletionIncomplete(doc: nat)
    | RaiseDeletionInvariantViolation(doc: nat)
    | RaiseNoIngestionJob(doc: nat)

  /** The first document holding `hash`, as `find_document_by_content_hash` returns it. */
  function FindByHash(docs: seq<Record>, hash: Digest): (r: Option<nat>)
    ensures r.Some? ==> r.value < |docs| && docs[r.value].hash == Some(hash)
    ensures r.None? ==> forall i :: 0 <= i < |docs| ==> docs[i].hash != Some(hash)
  {
    if docs == [] then None
    else
      var earlier := FindByHash(docs[..|docs| - 1], hash);
      if earlier.Some? then earlier
      else if Last(docs).hash == Some(hash) then Some(|docs| - 1)
      else None
  }

  /** What a deletion row of the document found makes of the request. */
  function DeletionAnswer(doc: nat, deletion: seq<DeletionJob>): UploadDecision
    requires deletion != []
  {
    match Last(deletion).status
    case DeletionPending => RaiseDeletionActive(doc)
    case DeletionProcessing => RaiseDeletionActive(doc)
    case DeletionPartiallyFailed => RaiseDeletionIncomplete(doc)
    case DeletionCompleted => RaiseDeletionInvariantViolation(doc)
  }

  function IngestionAnswer(doc: nat, ingestion: seq<IngestionJob>): UploadDecision {
    if ingestion == [] then RaiseNoIngestionJob(doc)
    else if ActiveJob(Last(ingestion).status) then ReuseActive(doc)
    else if Last(ingestion).status == Completed then ReuseIndexed(doc)
    else ReuseFailed(doc)
  }

  /** decide_upload if its three reads see one state. */
  function DecideUpload(docs: seq<Record>, hash: Digest): UploadDecision {
    var found := FindByHash(docs, hash);
    if found.None? then Create
    else
      var r := docs[found.value];
      if r.deletion != [] then DeletionAnswer(found.value, r.deletion) else IngestionAnswer(found.value, r.ingestion)
  }

  // ----- steps -----

  function EnvOf(s: System, doc: nat): Env
    requires doc < |s.docs|
  {
    Env(s.docs[doc].key in s.storage, s.catalog)
  }

  predicate CanStep(s: System, step: Step) {
    match step
    case Touch(doc, d) => doc < |s.docs| && Enabled(s.docs[doc], d, EnvOf(s, doc))
    case BeginUpload(q, hash) => q !in s.uploads
    case SaveObject(q, key) => q in s.uploads && s.uploads[q].ToSave? && key !in s.issued
    case CommitUpload(q) => q in s.uploads && s.uploads[q].ToCommit?
    case RejectCommit(q) => q in s.uploads && s.uploads[q].ToCommit?
    case DeleteOwnObject(q, _) => q in s.uploads && (s.uploads[q].LostRace? || s.uploads[q].CommitFailed?)
    case LookAgain(q) => q in s.uploads && s.uploads[q].ToRedecide?
    case ReadDeletionState(q) => q in s.uploads && s.uploads[q].Found? && s.uploads[q].doc < |s.docs|
    case ReadIngestionState(q) => q in s.uploads && s.uploads[q].NotDeleted? && s.uploads[q].doc < |s.docs|
    case EndUpload(q) => q in s.uploads && !HasKey(s.uploads[q])
  }

  /** The answer, if any, the request of this step gets by it. */
  function Answer(s: System, step: Step): Option<UploadDecision>
    requires CanStep(s, step)
  {
    match step
    case CommitUpload(q) => if FindByHash(s.docs, s.uploads[q].hash).None? then Some(Create) else None
    case LookAgain(q) => if FindByHash(s.docs, s.uploads[q].hash).None? then Some(RaiseMissingWinner) else None
    case ReadDeletionState(q) =>
      var doc := s.uploads[q].doc;
      if s.docs[doc].deletion == [] then None else Some(DeletionAnswer(doc, s.docs[doc].deletion))
    case ReadIngestionState(q) => Some(IngestionAnswer(s.uploads[q].doc, s.docs[s.uploads[q].doc].ingestion))
    case _ => None
  }

  function Next(s: System, step: Step): System
    requires CanStep(s, step)
  {
    match step
    case Touch(doc, d) =>
      var r := s.docs[doc];
      var env := NextEnv(r, d, EnvOf(s, doc));
      s.(docs := s.docs[doc := Apply(r, d, EnvOf(s, doc))],
         storage := if env.stored then s.storage else s.storage - {r.key},
         catalog := env.catalog)
    case BeginUpload(q, hash) =>
      var found := FindByHash(s.docs, hash);
      s.(uploads := s.uploads[q := if found.None? then ToSave(hash) else Found(hash, found.value, false)])
    case SaveObject(q, key) =>
      s.(uploads := s.uploads[q := ToCommit(s.uploads[q].hash, key)],
         storage := s.storage[key := s.uploads[q].hash],
         issued := s.issued + {key})
    case CommitUpload(q) =>
      var u := s.uploads[q];
      // the unique index on content_hash lets only one commit through
      if FindByHash(s.docs, u.hash).Some? then s.(uploads := s.uploads[q := LostRace(u.hash, u.key)])
      else s.(docs := s.docs + [Fresh(u.key, u.hash)], uploads := s.uploads - {q})
    case RejectCommit(q) => s.(uploads := s.uploads[q := CommitFailed(s.uploads[q].key)])
    case DeleteOwnObject(q, ok) =>
      var u := s.uploads[q];
      s.(storage := if ok then s.storage - {u.key} else s.storage,
         leftovers := if ok then s.leftovers else s.leftovers + {u.key},
         uploads := if u.LostRace? then s.uploads[q := ToRedecide(u.hash)] else s.uploads - {q})
    case LookAgain(q) =>
      var found := FindByHash(s.docs, s.uploads[q].hash);
      s.(uploads := if found.None? then s.uploads - {q} else s.uploads[q := Found(s.uploads[q].hash, found.value, true)])
    case ReadDeletionState(q) =>
      var u := s.uploads[q];
      s.(uploads := if s.docs[u.doc].deletion != [] then s.uploads - {q}
                    else s.uploads[q := NotDeleted(u.hash, u.doc, u.again)])
    case ReadIngestionState(q) => s.(uploads := s.uploads - {q})
    case EndUpload(q) => s.(uploads := s.uploads - {q})
  }

  predicate AssumedStep(s: System, step: Step) {
    step.Touch? && step.doc < |s.docs| ==> Assumed(s.docs[step.doc], step.step, EnvOf(s, step.doc))
  }

  // ----- runs -----

  /** `states` is a run of `steps` from the empty system, under the assumptions. */
  ghost predicate Run(states: seq<System>, steps: seq<Step>) {
    && |states| == |steps| + 1
    && states[0] == EMPTY
    && forall i :: 0 <= i < |steps| ==> StepAt(states, steps, i)
  }

  ghost predicate StepAt(states: seq<System>, steps: seq<Step>, i: nat)
    requires i < |steps| && |states| == |steps| + 1
  {
    CanStep(states[i], steps[i]) && AssumedStep(states[i], steps[i]) && states[i + 1] == Next(states[i], steps[i])
  }

  // ----- the invariant of the whole system -----

  ghost predicate DocsInv(s: System) {
    forall i :: 0 <= i < |s.docs| ==> Inv(s.docs[i], EnvOf(s, i))
  }

  ghost predicate HashesUnique(docs: seq<Record>) {
    forall i, j :: 0 <= i < j < |docs| && docs[i].hash.Some? ==> docs[i].hash != docs[j].hash
  }

  predicate HasKey(u: Upload) {
    u.ToCommit? || u.LostRace? || u.CommitFailed?
  }

  /** No key is shared: not between documents, nor between uploads, nor across the two. */
  ghost predicate KeysDisjoint(docs: seq<Record>, uploads: map<nat, Upload>, issued: set<Key>) {
    && (forall i :: 0 <= i < |docs| ==> docs[i].key in issued)
    && (forall i, j :: 0 <= i < j < |docs| ==> docs[i].key != docs[j].key)
    && (forall q :: q in uploads && HasKey(uploads[q]) ==> uploads[q].key in issued)
    && (forall q, i :: q in uploads && HasKey(uploads[q]) && 0 <= i < |docs| ==> uploads[q].key != docs[i].key)
    && (forall q, p :: q in uploads && p in uploads && q != p && HasKey(uploads[q]) && HasKey(uploads[p]) ==>
          uploads[q].key != uploads[p].key)
  }

  /** Every stored object belongs to a document, to an upload, or to a delete that failed. */
  ghost predicate Owned(s: System, key: Key) {
    || key in s.leftovers
    || (exists i :: 0 <= i < |s.docs| && s.docs[i].key == key)
    || (exists q :: q in s.uploads && HasKey(s.uploads[q]) && s.uploads[q].key == key)
  }

  ghost predicate StorageOwned(s: System) {
    forall key :: key in s.storage ==> key in s.issued && Owned(s, key)
  }

  /** A document that still holds its hash and has its object stored has the bytes of that hash. */
  ghost predicate ContentsMatch(s: System) {
    && (forall i :: 0 <= i < |s.docs| && s.docs[i].hash.Some? && s.docs[i].key in s.storage ==>
          s.storage[s.docs[i].key] == s.docs[i].hash.value)
    && (forall q :: q in s.uploads && s.uploads[q].ToCommit? ==>
          s.uploads[q].key in s.storage && s.storage[s.uploads[q].key] == s.uploads[q].hash)
  }

  ghost predicate SystemInv(s: System) {
    && DocsInv(s)
    && HashesUnique(s.docs)
    && KeysDisjoint(s.docs, s.uploads, s.issued)
    && StorageOwned(s)
    && ContentsMatch(s)
  }

  // ----- how one segment of one document looks from outside -----

  ghost predicate SameIdentity(r: Record, r': Record) {
    r'.key == r.key && (r'.hash == r.hash || r'.hash == None)
  }

  /** A segment changes neither the document's key nor its hash, except that completion releases the hash. */
  lemma SegmentIdentity(r: Record, d: DocStep, env: Env)
    requires Enabled(r, d, env)
    ensures SameIdentity(r, Apply(r, d, env))
  {
    match d
    case Ingest(i) => IngestionFrame(r, i, env);
    case Reindex(i) => ReindexFrame(r, i, env);
    case Cutover(i) => CutoverFrame(r, i, env);
    case Delete(i) => DeletionFrame(r, i);
  }

  lemma CatalogOnlyGrows(r: Record, d: DocStep, catalog: map<Collection, Metadata>)
    ensures catalog.Keys <= ApplyCatalog(r, d, catalog).Keys
  {
  }

  // ----- segments of one document -----

  lemma TouchDocs(s: System, step: Step)
    requires SystemInv(s) && step.Touch? && CanStep(s, step) && AssumedStep(s, step)
    ensures DocsInv(Next(s, step))
  {
    var s' := Next(s, step);
    var env := EnvOf(s, step.doc);
    CatalogOnlyGrows(s.docs[step.doc], step.step, s.catalog);
    forall i | 0 <= i < |s.docs| ensures Inv(s'.docs[i], EnvOf(s', i)) {
      if i == step.doc {
        SegmentIdentity(s.docs[i], step.step, env);
        StepKeeps(s.docs[i], step.step, env);
        assert EnvOf(s', i) == NextEnv(s.docs[i], step.step, env);
      } else {
        CatalogGrows(s.docs[i], EnvOf(s, i), s'.catalog);
        assert EnvOf(s', i) == EnvOf(s, i).(catalog := s'.catalog);
      }
    }
  }

  /** The parts of the invariant that mention identities only. */
  ghost predicate IdentityInv(s: System) {
    HashesUnique(s.docs) && KeysDisjoint(s.docs, s.uploads, s.issued) && StorageOwned(s) && ContentsMatch(s)
  }

  /** Those parts survive replacing a document by one of the same identity, and removing its object. */
  lemma SameIdentityKeeps(s: System, doc: nat, r: Record, storage: map<Key, Digest>, catalog: map<Collection, Metadata>)
    requires IdentityInv(s) && doc < |s.docs| && SameIdentity(s.docs[doc], r)
    requires storage == s.storage || storage == s.storage - {r.key}
    ensures IdentityInv(s.(docs := s.docs[doc := r], storage := storage, catalog := catalog))
  {
    var s' := s.(docs := s.docs[doc := r], storage := storage, catalog := catalog);
    forall key | key in s'.storage ensures Owned(s', key) {
      if i :| 0 <= i < |s.docs| && s.docs[i].key == key {
        assert s'.docs[i].key == key;
      }
    }
  }

  lemma TouchKeeps(s: System, step: Step)
    requires SystemInv(s) && step.Touch? && CanStep(s, step) && AssumedStep(s, step)
    ensures SystemInv(Next(s, step))
  {
    var r := s.docs[step.doc];
    var env := EnvOf(s, step.doc);
    TouchDocs(s, step);
    SegmentIdentity(r, step.step, env);
    var s' := Next(s, step);
    SameIdentityKeeps(s, step.doc, Apply(r, step.step, env), s'.storage, s'.catalog);
  }

  // ----- segments of an upload -----

  lemma UploadDocs(s: System, step: Step)
    requires SystemInv(s) && !step.Touch? && CanStep(s, step)
    ensures DocsInv(Next(s, step))
  {
    var s' := Next(s, step);
    forall i | 0 <= i < |s'.docs| ensures Inv(s'.docs[i], EnvOf(s', i)) {
      if i < |s.docs| {
        UploadsLeaveDocs(s, step, i);
      } else {
        var u := s.uploads[step.request];
        FreshInv(u.key, u.hash, s.catalog);
      }
    }
  }

  lemma UploadsLeaveDocs(s: System, step: Step, i: nat)
    requires KeysDisjoint(s.docs, s.uploads, s.issued) && !step.Touch? && CanStep(s, step) && i < |s.docs|
    ensures i < |Next(s, step).docs| && Next(s, step).docs[i] == s.docs[i] && EnvOf(Next(s, step), i) == EnvOf(s, i)
  {
  }

  lemma UploadOwned(s: System, step: Step)
    requires IdentityInv(s) && !step.Touch? && CanStep(s, step)
    ensures StorageOwned(Next(s, step))
  {
    var s' := Next(s, step);
    forall key | key in s'.storage ensures key in s'.issued && Owned(s', key) {
      if key !in s.storage {
        assert s'.uploads[step.request].key == key;
      } else if i :| 0 <= i < |s.docs| && s.docs[i].key == key {
        assert s'.docs[i].key == key;
      } else if q :| q in s.uploads && HasKey(s.uploads[q]) && s.uploads[q].key == key {
        if q != step.request {
          assert s'.uploads[q].key == key;
        } else if |s'.docs| > |s.docs| {
          assert s'.docs[|s.docs|].key == key;
        } else {
          assert key in s'.leftovers || s'.uploads[q].key == key;
        }
      }
    }
  }

  lemma SaveKeys(s: System, step: Step)
    requires KeysDisjoint(s.docs, s.uploads, s.issued) && step.SaveObject? && CanStep(s, step)
    ensures var s' := Next(s, step); KeysDisjoint(s'.docs, s'.uploads, s'.issued)
  {
  }

  lemma CommitKeys(s: System, step: Step)
    requires KeysDisjoint(s.docs, s.uploads, s.issued) && step.CommitUpload? && CanStep(s, step)
    ensures var s' := Next(s, step); KeysDisjoint(s'.docs, s'.uploads, s'.issued)
  {
    var u := s.uploads[step.request];
    if FindByHash(s.docs, u.hash).None? {
      KeyMoves(s.docs, s.uploads, s.issued, step.request, Fresh(u.key, u.hash));
    }
  }

  /** A committed upload's key becomes its document's. */
  lemma KeyMoves(docs: seq<Record>, uploads: map<nat, Upload>, issued: set<Key>, q: nat, r: Record)
    requires KeysDisjoint(docs, uploads, issued) && q in uploads && HasKey(uploads[q]) && r.key == uploads[q].key
    ensures KeysDisjoint(docs + [r], uploads - {q}, issued)
  {
  }

  lemma UploadKeys(s: System, step: Step)
    requires KeysDisjoint(s.docs, s.uploads, s.issued) && !step.Touch? && CanStep(s, step)
    ensures var s' := Next(s, step); KeysDisjoint(s'.docs, s'.uploads, s'.issued)
  {
    if step.SaveObject? {
      SaveKeys(s, step);
    } else if step.CommitUpload? {
      CommitKeys(s, step);
    } else {
      KeysOnlyLeave(s, step);
    }
  }

  lemma KeysOnlyLeave(s: System, step: Step)
    requires !step.Touch? && !step.SaveObject? && !step.CommitUpload? && CanStep(s, step)
    requires KeysDisjoint(s.docs, s.uploads, s.issued)
    ensures KeysDisjoint(Next(s, step).docs, Next(s, step).uploads, Next(s, step).issued)
  {
    var s' := Next(s, step);
    assert forall q :: q in s'.uploads && HasKey(s'.uploads[q]) ==>
      q in s.uploads && HasKey(s.uploads[q]) && s'.uploads[q].key == s.uploads[q].key;
    assert s'.docs == s.docs && s'.issued == s.issued;
  }

  lemma UploadHashes(s: System, step: Step)
    requires HashesUnique(s.docs) && !step.Touch? && CanStep(s, step)
    ensures HashesUnique(Next(s, step).docs)
  {
  }

  lemma UploadContents(s: System, step: Step)
    requires IdentityInv(s) && !step.Touch? && CanStep(s, step)
    ensures ContentsMatch(Next(s, step))
  {
  }

  lemma NextKeeps(s: System, step: Step)
    requires SystemInv(s) && CanStep(s, step) && AssumedStep(s, step)
    ensures SystemInv(Next(s, step))
  {
    if step.Touch? {
      TouchKeeps(s, step);
    } else {
      UploadDocs(s, step);
      UploadOwned(s, step);
      UploadKeys(s, step);
      UploadHashes(s, step);
      UploadContents(s, step);
    }
  }

  /** The system invariant holds in every state of every run. */
  lemma {:induction false} RunKeeps(states: seq<System>, steps: seq<Step>, i: nat)
    requires Run(states, steps) && i < |states|
    ensures SystemInv(states[i])
  {
    if i > 0 {
      RunKeeps(states, steps, i - 1);
      assert StepAt(states, steps, i - 1);
      NextKeeps(states[i - 1], steps[i - 1]);
    }
  }

  lemma RunDocs(states: seq<System>, steps: seq<Step>, i: nat)
    requires Run(states, steps) && i < |states|
    ensures DocsInv(states[i])
  {
    RunKeeps(states, steps, i);
  }

  /** In particular every document's own invariant holds there. */
  lemma RunInv(states: seq<System>, steps: seq<Step>, i: nat, d: nat)
    requires Run(states, steps) && i < |states| && d < |states[i].docs|
    ensures Inv(states[i].docs[d], EnvOf(states[i], d))
  {
    RunKeeps(states, steps, i);
  }

  // ----- what is never taken back -----

  lemma NothingTakenBack(r: Record, s: DocStep, env: Env)
    requires Enabled(r, s, env)
    ensures |r.deletion| <= |Apply(r, s, env).deletion| && (r.collection.Some? ==> Apply(r, s, env).collection.Some?)
  {
    match s
    case Ingest(i) => IngestionFrame(r, i, env);
    case Reindex(i) => ReindexFrame(r, i, env);
    case Cutover(i) => CutoverFrame(r, i, env);
    case Delete(i) => DeletionFrame(r, i);
  }

  /** Documents stay, deletion rows are only added, and an indexed document stays indexed. */
  lemma {:induction false} DocsStay(states: seq<System>, steps: seq<Step>, i: nat, j: nat, d: nat)
    requires Run(states, steps) && i <= j < |states| && d < |states[i].docs|
    ensures d < |states[j].docs| && |states[i].docs[d].deletion| <= |states[j].docs[d].deletion|
    ensures states[i].docs[d].collection.Some? ==> states[j].docs[d].collection.Some?
    decreases j
  {
    if i < j {
      DocsStay(states, steps, i, j - 1, d);
      assert StepAt(states, steps, j - 1);
      if steps[j - 1].Touch? && steps[j - 1].doc == d {
        NothingTakenBack(states[j - 1].docs[d], steps[j - 1].step, EnvOf(states[j - 1], d));
      }
    }
  }
}

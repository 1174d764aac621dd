/** One vector collection as a map from point ids, and how a document's chunks live in it. The point id is a
    name-based UUID of the chunk id; that hash is a parameter, assumed injective. */
module VectorPoints {
  import opened Wrappers
  import opened DocumentRecord
  import opened Decimals
  import opened Chunker

  type PointId = nat
  type Vector = seq<real>
  type Store = map<PointId, Point>

  datatype Point = Point(id: PointId, vector: Vector, documentId: string, chunkId: string, text: string, source: string,
                         pageNumber: Option<nat>, sheetName: Option<string>)

  ghost predicate Injective(uuid: string -> PointId) {
    forall a, b :: uuid(a) == uuid(b) ==> a == b
  }

  function ToVectorPoint(uuid: string -> PointId, chunk: Chunk, vector: Vector, source: string): Point {
    Point(uuid(chunk.chunkId), vector, chunk.documentId, chunk.chunkId, chunk.text, source, chunk.pageNumber, chunk.sheetName)
  }

  /** The points of a document's first `n` chunks, with their embeddings, written one after the other. */
  function Write(uuid: string -> PointId, store: Store, chunks: seq<Chunk>, vectors: seq<Vector>, source: string, n: nat): Store
    requires n <= |chunks| == |vectors|
  {
    if n == 0 then store
    else
      var point := ToVectorPoint(uuid, chunks[n - 1], vectors[n - 1], source);
      Write(uuid, store, chunks, vectors, source, n - 1)[point.id := point]
  }

  /** The delete-by-document filter. */
  function DeleteDocument(store: Store, documentId: string): Store {
    map id | id in store && store[id].documentId != documentId :: store[id]
  }

  predicate HasChunk(uuid: string -> PointId, store: Store, documentId: string, index: nat) {
    uuid(ChunkId(documentId, index)) in store
  }

  /** Every point is stored under the id of one of its document's chunks. */
  ghost predicate WellFormed(uuid: string -> PointId, store: Store) {
    forall id :: id in store ==> exists index: nat :: id == uuid(ChunkId(store[id].documentId, index))
  }

  /** The chunks are numbered from zero, as the chunker numbers them. */
  predicate Numbered(chunks: seq<Chunk>, documentId: string) {
    forall i :: 0 <= i < |chunks| ==> chunks[i].documentId == documentId && chunks[i].chunkId == ChunkId(documentId, i)
  }

  // ----- chunk ids -----

  /** The last dash of a chunk id separates the document id, whatever that contains, from the index. */
  lemma ChunkIdInjective(d: string, i: nat, e: string, j: nat)
    requires ChunkId(d, i) == ChunkId(e, j)
    ensures d == e && i == j
  {
    var id := ChunkId(d, i);
    assert id[|d|] == '-' && id[|e|] == '-';
    assert forall k :: |d| < k < |id| ==> id[k] == Decimal(i)[k - |d| - 1];
    assert forall k :: |e| < k < |id| ==> id[k] == Decimal(j)[k - |e| - 1];
    assert |d| == |e|;
    assert id[..|d|] == d && id[..|e|] == e;
    assert id[|d| + 1..] == Decimal(i) && id[|e| + 1..] == Decimal(j);
    ValueOfDecimal(i);
    ValueOfDecimal(j);
  }

  lemma ChunksAreNumbered(chunks: seq<Chunk>, documentId: string, texts: seq<(Page, string)>)
    requires AreChunks(chunks, documentId, texts)
    ensures Numbered(chunks, documentId)
    ensures forall i, j :: 0 <= i < j < |chunks| ==> chunks[i].chunkId != chunks[j].chunkId
  {
    forall i, j | 0 <= i < j < |chunks| ensures chunks[i].chunkId != chunks[j].chunkId {
      if chunks[i].chunkId == chunks[j].chunkId {
        ChunkIdInjective(documentId, i, documentId, j);
      }
    }
  }

  // ----- writing and deleting -----

  /** What a write does to the point of one chunk of any document. */
  lemma {:induction false} WriteAt(uuid: string -> PointId, store: Store, chunks: seq<Chunk>, vectors: seq<Vector>,
                                   source: string, n: nat, d: string, e: string, i: nat)
    requires Injective(uuid) && n <= |chunks| == |vectors| && Numbered(chunks, d)
    ensures var id, after := uuid(ChunkId(e, i)), Write(uuid, store, chunks, vectors, source, n);
            if e == d && i < n then id in after && after[id] == ToVectorPoint(uuid, chunks[i], vectors[i], source)
            else (id in after <==> id in store) && (id in store ==> after[id] == store[id])
  {
    if n > 0 {
      WriteAt(uuid, store, chunks, vectors, source, n - 1, d, e, i);
      if uuid(ChunkId(e, i)) == uuid(ChunkId(d, n - 1)) {
        ChunkIdInjective(e, i, d, n - 1);
      }
    }
  }

  lemma {:induction false} WriteKeepsWellFormed(uuid: string -> PointId, store: Store, chunks: seq<Chunk>, vectors: seq<Vector>,
                                                source: string, n: nat, d: string)
    requires WellFormed(uuid, store) && n <= |chunks| == |vectors| && Numbered(chunks, d)
    ensures WellFormed(uuid, Write(uuid, store, chunks, vectors, source, n))
  {
    if n > 0 {
      WriteKeepsWellFormed(uuid, store, chunks, vectors, source, n - 1, d);
      var point := ToVectorPoint(uuid, chunks[n - 1], vectors[n - 1], source);
      assert point.id == uuid(ChunkId(point.documentId, n - 1));
    }
  }

  /** The point stored for a chunk id has the chunk's embedding and, as payload, what is known of the chunk. */
  predicate Carries(uuid: string -> PointId, store: Store, chunk: Chunk, vector: Vector, source: string, chunkId: string) {
    uuid(chunkId) in store
    && var point := store[uuid(chunkId)];
       && point.id == uuid(chunkId) && point.vector == vector
       && point.documentId == chunk.documentId && point.chunkId == chunkId && point.text == chunk.text
       && point.source == source && point.pageNumber == chunk.pageNumber && point.sheetName == chunk.sheetName
  }

  /** A write adds exactly the document's chunks, each with its embedding and payload, and leaves every point of every other document alone. */
  lemma WriteAddsOwnChunks(uuid: string -> PointId, store: Store, chunks: seq<Chunk>, vectors: seq<Vector>, source: string, d: string)
    requires Injective(uuid) && WellFormed(uuid, store) && |chunks| == |vectors| && Numbered(chunks, d)
    ensures var after := Write(uuid, store, chunks, vectors, source, |chunks|);
            && WellFormed(uuid, after)
            && (forall e, i: nat :: HasChunk(uuid, after, e, i) <==> (e == d && i < |chunks|) || HasChunk(uuid, store, e, i))
            && (forall id :: id in store && store[id].documentId != d ==> id in after && after[id] == store[id])
    ensures var after := Write(uuid, store, chunks, vectors, source, |chunks|);
            forall i :: 0 <= i < |chunks| ==> Carries(uuid, after, chunks[i], vectors[i], source, d + "-" + Decimal(i))
  {
    var after := Write(uuid, store, chunks, vectors, source, |chunks|);
    forall i | 0 <= i < |chunks| ensures Carries(uuid, after, chunks[i], vectors[i], source, d + "-" + Decimal(i)) {
      WriteAt(uuid, store, chunks, vectors, source, |chunks|, d, d, i);
    }
    WriteKeepsWellFormed(uuid, store, chunks, vectors, source, |chunks|, d);
    forall e, i: nat ensures HasChunk(uuid, after, e, i) <==> (e == d && i < |chunks|) || HasChunk(uuid, store, e, i) {
      WriteAt(uuid, store, chunks, vectors, source, |chunks|, d, e, i);
    }
    forall id | id in store && store[id].documentId != d ensures id in after && after[id] == store[id] {
      var index: nat :| id == uuid(ChunkId(store[id].documentId, index));
      WriteAt(uuid, store, chunks, vectors, source, |chunks|, d, store[id].documentId, index);
    }
  }

  /** Writing the same points again changes nothing, so a retried ingestion or build leaves no duplicates. */
  lemma WriteIsIdempotent(uuid: string -> PointId, store: Store, chunks: seq<Chunk>, vectors: seq<Vector>, source: string, d: string)
    requires Injective(uuid) && |chunks| == |vectors| && Numbered(chunks, d)
    ensures var after := Write(uuid, store, chunks, vectors, source, |chunks|);
            Write(uuid, after, chunks, vectors, source, |chunks|) == after
  {
    var after := Write(uuid, store, chunks, vectors, source, |chunks|);
    forall i | 0 <= i < |chunks|
      ensures uuid(chunks[i].chunkId) in after
      ensures after[uuid(chunks[i].chunkId)] == ToVectorPoint(uuid, chunks[i], vectors[i], source)
    {
      WriteAt(uuid, store, chunks, vectors, source, |chunks|, d, d, i);
    }
    Rewrite(uuid, after, chunks, vectors, source, |chunks|);
  }

  lemma {:induction false} Rewrite(uuid: string -> PointId, store: Store, chunks: seq<Chunk>, vectors: seq<Vector>, source: string, n: nat)
    requires n <= |chunks| == |vectors|
    requires forall i :: 0 <= i < n ==>
               uuid(chunks[i].chunkId) in store
               && store[uuid(chunks[i].chunkId)] == ToVectorPoint(uuid, chunks[i], vectors[i], source)
    ensures Write(uuid, store, chunks, vectors, source, n) == store
  {
    if n > 0 {
      Rewrite(uuid, store, chunks, vectors, source, n - 1);
    }
  }

  /** A delete removes every chunk of the document and none of any other. */
  lemma DeleteRemovesOwnChunks(uuid: string -> PointId, store: Store, d: string)
    requires Injective(uuid) && WellFormed(uuid, store)
    ensures WellFormed(uuid, DeleteDocument(store, d))
    ensures forall e, i: nat :: HasChunk(uuid, DeleteDocument(store, d), e, i) <==> e != d && HasChunk(uuid, store, e, i)
    ensures forall id :: id in DeleteDocument(store, d) <==> id in store && store[id].documentId != d
    ensures forall id :: id in DeleteDocument(store, d) ==> DeleteDocument(store, d)[id] == store[id]
  {
    forall e, i: nat | HasChunk(uuid, store, e, i) ensures store[uuid(ChunkId(e, i))].documentId == e {
      var id := uuid(ChunkId(e, i));
      var index: nat :| id == uuid(ChunkId(store[id].documentId, index));
      ChunkIdInjective(e, i, store[id].documentId, index);
    }
  }

  // ----- the record's index sets stand for the stored points -----

  /** In collection `c` the store holds exactly the chunks that `points` lists for the document. */
  ghost predicate Represents(points: map<Collection, set<nat>>, c: Collection, uuid: string -> PointId, store: Store, d: string) {
    forall i: nat :: i in PointsIn(points, c) <==> HasChunk(uuid, store, d, i)
  }

  /** The lifecycle model's `Upsert` and `Erase` are the writes and deletes of the real points, whatever
      chunk sizes and embeddings the first ingestion or a re-index uses. */
  lemma RecordRefinesStore(points: map<Collection, set<nat>>, c: Collection, uuid: string -> PointId, store: Store, d: string,
                           chunks: seq<Chunk>, vectors: seq<Vector>, source: string)
    requires Injective(uuid) && WellFormed(uuid, store) && |chunks| == |vectors| && Numbered(chunks, d)
    requires Represents(points, c, uuid, store, d)
    ensures Represents(Upsert(points, c, |chunks|), c, uuid, Write(uuid, store, chunks, vectors, source, |chunks|), d)
    ensures Represents(Erase(points, c), c, uuid, DeleteDocument(store, d), d)
  {
    WriteAddsOwnChunks(uuid, store, chunks, vectors, source, d);
    DeleteRemovesOwnChunks(uuid, store, d);
  }

  /** Another document's index set stands for its points before and after such a write or delete. */
  lemma OthersStayRepresented(points: map<Collection, set<nat>>, c: Collection, uuid: string -> PointId, store: Store, d: string,
                              other: string, chunks: seq<Chunk>, vectors: seq<Vector>, source: string)
    requires Injective(uuid) && WellFormed(uuid, store) && |chunks| == |vectors| && Numbered(chunks, d) && other != d
    requires Represents(points, c, uuid, store, other)
    ensures Represents(points, c, uuid, Write(uuid, store, chunks, vectors, source, |chunks|), other)
    ensures Represents(points, c, uuid, DeleteDocument(store, d), other)
  {
    WriteAddsOwnChunks(uuid, store, chunks, vectors, source, d);
    DeleteRemovesOwnChunks(uuid, store, d);
  }
}

/** app/models/embeddings_manager.py: the EmbeddingsManager that writes a
    document's chunks into the chromadb collection named after the document,
    and the summary store "pdf_summaries" with add_pdf_summary and
    delete_pdf_data. */
module EmbeddingsManager {
  import opened Chunking
  import opened Store

  /** The name of the summary collection. */
  const SummariesName: string := "pdf_summaries"

  /** The parallel lists handed to collection.add. */
  datatype Batch = Batch(ids: seq<string>, documents: seq<string>, metadatas: seq<Meta>)

  /** The ids, documents and metadatas update_embeddings builds: one entry
      per chunk, index-aligned and in chunk order, each metadata holding the
      chunk's id and page number. */
  function BuildBatch(chunks: seq<Chunk>): (b: Batch)
    ensures |b.ids| == |chunks| && |b.documents| == |chunks| && |b.metadatas| == |chunks|
    ensures forall i :: 0 <= i < |chunks| ==>
      && b.ids[i] == chunks[i].chunkId
      && b.documents[i] == chunks[i].text
      && b.metadatas[i] == ChunkMeta(chunks[i].chunkId, chunks[i].pageNumber)
    decreases |chunks|
  {
    if chunks == [] then Batch([], [], [])
    else
      var rest := BuildBatch(chunks[1..]);
      var c := chunks[0];
      Batch([c.chunkId] + rest.ids, [c.text] + rest.documents, [ChunkMeta(c.chunkId, c.pageNumber)] + rest.metadatas)
  }

  /** The chunks a batch describes. */
  function Unbatch(b: Batch): seq<Chunk>
    requires |b.ids| == |b.documents| == |b.metadatas|
    decreases |b.ids|
  {
    if b.ids == [] then []
    else
      var page := match b.metadatas[0] case ChunkMeta(_, p) => p case SummaryMeta(_) => 0;
      [Chunk(b.ids[0], b.documents[0], page)] + Unbatch(Batch(b.ids[1..], b.documents[1..], b.metadatas[1..]))
  }

  /** The batch loses nothing: the chunks can be read back from it. */
  lemma {:induction false} BatchRoundTrip(chunks: seq<Chunk>)
    ensures Unbatch(BuildBatch(chunks)) == chunks
    decreases |chunks|
  {
    if chunks != [] {
      var b := BuildBatch(chunks);
      var rest := BuildBatch(chunks[1..]);
      assert Batch(b.ids[1..], b.documents[1..], b.metadatas[1..]) == rest;
      BatchRoundTrip(chunks[1..]);
    }
  }

  /** The collection after update_embeddings adds the chunks to `col`. */
  function Populated(col: Collection, chunks: seq<Chunk>): Collection {
    var b := BuildBatch(chunks);
    AddAll(col, b.ids, b.documents, b.metadatas)
  }

  /** Populating an empty collection with chunks whose ids are distinct stores
      exactly one record per chunk, under its id, holding its text and
      {chunk_id, page_number}. */
  lemma PopulatedEmpty(chunks: seq<Chunk>)
    requires DistinctIds(chunks)
    ensures |Populated(map[], chunks)| == |chunks|
    ensures forall k :: 0 <= k < |chunks| ==>
      && chunks[k].chunkId in Populated(map[], chunks)
      && Populated(map[], chunks)[chunks[k].chunkId] == Entry(chunks[k].text, ChunkMeta(chunks[k].chunkId, chunks[k].pageNumber))
  {
    var b := BuildBatch(chunks);
    assert Unique(b.ids);
    AddAllCount(b.ids, b.documents, b.metadatas);
    forall k | 0 <= k < |chunks|
      ensures chunks[k].chunkId in Populated(map[], chunks)
      ensures Populated(map[], chunks)[chunks[k].chunkId] == Entry(chunks[k].text, ChunkMeta(chunks[k].chunkId, chunks[k].pageNumber))
    {
      AddAllStores(map[], b.ids, b.documents, b.metadatas, k);
    }
  }

  /** An EmbeddingsManager: the shared client and the name of the document's
      collection. */
  class Manager {
    const client: Client
    const name: string

    /** EmbeddingsManager(pdf_id): gets or creates the collection pdf_id. */
    constructor (client: Client, pdfId: string)
      modifies client
      ensures this.client == client && name == pdfId
      ensures client.collections == GetOrCreate(old(client.collections), pdfId)
    {
      this.client := client;
      name := pdfId;
      new;
      client.GetOrCreateCollection(pdfId);
    }

    /** update_embeddings: adds every chunk to the collection, under its id,
        with its text and {chunk_id, page_number}. */
    method UpdateEmbeddings(chunks: seq<Chunk>)
      requires name in client.collections
      modifies client
      ensures client.collections == old(client.collections)[name := Populated(old(client.collections)[name], chunks)]
    {
      var b := BuildBatch(chunks);
      client.Add(name, b.ids, b.documents, b.metadatas);
    }
  }

  /** The summary collection, empty when it does not exist yet. */
  function Summaries(cols: map<string, Collection>): Collection {
    if SummariesName in cols then cols[SummariesName] else map[]
  }

  /** The collections after add_pdf_summary(pdf_id, summary). */
  function WithSummary(cols: map<string, Collection>, pdfId: string, summary: string): map<string, Collection> {
    var cols' := GetOrCreate(cols, SummariesName);
    cols'[SummariesName := AddAll(cols'[SummariesName], [pdfId], [summary], [SummaryMeta(pdfId)])]
  }

  /** add_pdf_summary: gets or creates the summary collection and adds the
      summary under the id pdf_id with metadata {pdf_id}. */
  method AddPdfSummary(client: Client, pdfId: string, summary: string)
    modifies client
    ensures client.collections == WithSummary(old(client.collections), pdfId, summary)
  {
    client.GetOrCreateCollection(SummariesName);
    client.Add(SummariesName, [pdfId], [summary], [SummaryMeta(pdfId)]);
  }

  /** After add_pdf_summary a summary for pdf_id exists; a new one is
      {document: summary, metadata: {pdf_id}}, one already stored is kept;
      other summaries and every other collection are unchanged. */
  lemma SummaryAdded(cols: map<string, Collection>, pdfId: string, summary: string)
    ensures pdfId in Summaries(WithSummary(cols, pdfId, summary))
    ensures pdfId !in Summaries(cols) ==>
      Summaries(WithSummary(cols, pdfId, summary))[pdfId] == Entry(summary, SummaryMeta(pdfId))
    ensures pdfId in Summaries(cols) ==> Summaries(WithSummary(cols, pdfId, summary)) == Summaries(cols)
    ensures forall id :: id in Summaries(cols) ==>
      id in Summaries(WithSummary(cols, pdfId, summary)) && Summaries(WithSummary(cols, pdfId, summary))[id] == Summaries(cols)[id]
    ensures forall n :: n in cols && n != SummariesName ==>
      n in WithSummary(cols, pdfId, summary) && WithSummary(cols, pdfId, summary)[n] == cols[n]
  {
    var col := Summaries(cols);
    AddAllKeeps(col, [pdfId], [summary], [SummaryMeta(pdfId)]);
    assert (set i | 0 <= i < |[pdfId]| :: [pdfId][i]) == {pdfId};
  }

  /** What delete_pdf_data returns, and the collections it leaves. */
  datatype Purge = Purge(deleted: bool, collections: map<string, Collection>)

  /** delete_pdf_data as a function of the collections before the call:
      fetch (creating if needed) the summary collection; without a summary
      for pdf_id, stop with False; otherwise delete the summary, then stop
      with False if no collection pdf_id exists, else delete it too and
      return True. */
  function PurgeOf(cols: map<string, Collection>, pdfId: string): Purge {
    var c1 := GetOrCreate(cols, SummariesName);
    if pdfId !in c1[SummariesName] then Purge(false, c1)
    else
      var c2 := c1[SummariesName := c1[SummariesName] - {pdfId}];
      if pdfId !in c2 then Purge(false, c2)
      else Purge(true, c2 - {pdfId})
  }

  /** delete_pdf_data(pdf_id). */
  method DeletePdfData(client: Client, pdfId: string) returns (deleted: bool)
    modifies client
    ensures deleted == PurgeOf(old(client.collections), pdfId).deleted
    ensures client.collections == PurgeOf(old(client.collections), pdfId).collections
  {
    client.GetOrCreateCollection(SummariesName);
    var found := client.Contains(SummariesName, pdfId);
    if !found {
      return false;
    }
    client.Delete(SummariesName, pdfId);
    var names := client.ListNames();
    if pdfId !in names {
      return false;
    }
    client.DeleteCollection(pdfId);
    return true;
  }

  /** Without a summary for pdf_id: False, and nothing changes except that
      an empty summary collection may have been created. */
  lemma PurgeWithoutSummary(cols: map<string, Collection>, pdfId: string)
    requires pdfId !in Summaries(cols)
    ensures !PurgeOf(cols, pdfId).deleted
    ensures PurgeOf(cols, pdfId).collections == GetOrCreate(cols, SummariesName)
  {
  }

  /** The partial deletion: with a summary but no collection pdf_id, the
      summary is gone, yet the result is False. */
  lemma PurgePartial(cols: map<string, Collection>, pdfId: string)
    requires pdfId in Summaries(cols) && pdfId !in cols
    ensures !PurgeOf(cols, pdfId).deleted
    ensures PurgeOf(cols, pdfId).collections == cols[SummariesName := cols[SummariesName] - {pdfId}]
    ensures pdfId !in Summaries(PurgeOf(cols, pdfId).collections)
  {
  }

  /** True exactly when both the summary and the collection existed. */
  lemma PurgeDeletedIff(cols: map<string, Collection>, pdfId: string)
    ensures PurgeOf(cols, pdfId).deleted <==> pdfId in Summaries(cols) && pdfId in cols
  {
  }

  /** After a deletion neither the collection nor (for any other name than
      the summary collection's own) the summary exists; the other summaries
      and all other collections are unchanged. */
  lemma PurgeEffect(cols: map<string, Collection>, pdfId: string)
    requires pdfId != SummariesName
    ensures var r := PurgeOf(cols, pdfId).collections;
      && pdfId !in Summaries(r)
      && Summaries(r) == Summaries(cols) - {pdfId}
      && (PurgeOf(cols, pdfId).deleted ==> pdfId !in r)
      && (!PurgeOf(cols, pdfId).deleted ==> (pdfId in r <==> pdfId in cols))
      && r.Keys - {SummariesName, pdfId} == cols.Keys - {SummariesName, pdfId}
    ensures forall n :: n in cols && n != SummariesName && n != pdfId ==>
      n in PurgeOf(cols, pdfId).collections && PurgeOf(cols, pdfId).collections[n] == cols[n]
  {
  }

  /** The exception to PurgeEffect: for the id "pdf_summaries", when a
      summary is stored under it, the summary store is itself the collection
      found by name, so it is deleted as a whole and the result is True. */
  lemma PurgeSummaryStore(cols: map<string, Collection>)
    requires SummariesName in Summaries(cols)
    ensures PurgeOf(cols, SummariesName).deleted
    ensures SummariesName !in PurgeOf(cols, SummariesName).collections
    ensures Summaries(PurgeOf(cols, SummariesName).collections) == map[]
    ensures PurgeOf(cols, SummariesName).collections == cols - {SummariesName}
  {
  }
}

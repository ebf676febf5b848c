/** app/routers/api.py: the /upload_pdf/ and /ask_questions/ routes. The
    uploaded file's pages, the word tokenizer, the fresh document id,
    retrieval and the answering model are parameters. */
module Api {
  import opened Text
  import opened Chunking
  import opened Store
  import opened PdfProcessor
  import opened EmbeddingsManager
  import opened Answers

  /** collection.query(query_texts=[question])["documents"]: one list of
      documents per query text, possibly none. */
  type Retriever = (Collection, string) -> seq<seq<string>>

  /** QuestionAnswering.get_answer: the answer to the i-th call, given the
      context and the question. */
  type Answerer = (nat, string, string) -> string

  /** The chunks an upload stores: the non-empty pages, cut into windows of
      DefaultMaxTokens words. */
  function UploadChunks(raw: seq<string>, wordTokenize: string -> seq<string>): seq<Chunk> {
    ChunksFrom(KeptPages(raw), DefaultMaxTokens, WordScheme(wordTokenize), 0)
  }

  /** The collections after a successful upload under the id pdfId. */
  function AfterUpload(cols: map<string, Collection>, raw: seq<string>, wordTokenize: string -> seq<string>, pdfId: string): map<string, Collection> {
    var c := GetOrCreate(cols, pdfId);
    c[pdfId := Populated(c[pdfId], UploadChunks(raw, wordTokenize))]
  }

  datatype UploadResponse = Uploaded(pdfId: string) | Rejected(status: int)

  /** upload_pdf: a file name not ending in ".pdf" is refused with 400 before
      anything happens; otherwise the pages are extracted, tokenized and
      written to a collection named by the new id. */
  method UploadPdf(client: Client, filename: string, raw: seq<string>, wordTokenize: string -> seq<string>, pdfId: string)
    returns (resp: UploadResponse)
    modifies client
    ensures !EndsWith(filename, ".pdf") ==> resp == Rejected(400) && client.collections == old(client.collections)
    ensures EndsWith(filename, ".pdf") ==>
      resp == Uploaded(pdfId) && client.collections == AfterUpload(old(client.collections), raw, wordTokenize, pdfId)
  {
    if !EndsWith(filename, ".pdf") {
      return Rejected(400);
    }
    var pages := ExtractNonEmptyPages(raw);
    var outcome := TokenizeWords(pages, DefaultMaxTokens, wordTokenize);
    var manager := new Manager(client, pdfId);
    manager.UpdateEmbeddings(outcome.chunks);
    resp := Uploaded(pdfId);
  }

  /** An upload under a new id creates a collection holding exactly one
      record per chunk, and leaves every other collection as it was. */
  lemma FreshUpload(cols: map<string, Collection>, raw: seq<string>, wordTokenize: string -> seq<string>, pdfId: string)
    requires pdfId !in cols
    ensures pdfId in AfterUpload(cols, raw, wordTokenize, pdfId)
    ensures |AfterUpload(cols, raw, wordTokenize, pdfId)[pdfId]| == |UploadChunks(raw, wordTokenize)|
    ensures forall k :: 0 <= k < |UploadChunks(raw, wordTokenize)| ==>
      var c := UploadChunks(raw, wordTokenize)[k];
      c.chunkId in AfterUpload(cols, raw, wordTokenize, pdfId)[pdfId]
      && AfterUpload(cols, raw, wordTokenize, pdfId)[pdfId][c.chunkId] == Entry(c.text, ChunkMeta(c.chunkId, c.pageNumber))
    ensures forall n :: n in cols ==> n in AfterUpload(cols, raw, wordTokenize, pdfId) && AfterUpload(cols, raw, wordTokenize, pdfId)[n] == cols[n]
  {
    ChunkIdsDistinct(KeptPages(raw), DefaultMaxTokens, wordTokenize, JoinSpace);
    PopulatedEmpty(UploadChunks(raw, wordTokenize));
  }

  /** The stored answer for the i-th question: the sentinel when nothing is
      retrieved, otherwise the model's raw answer to the top documents
      joined with a blank line, normalized. */
  function ApiValue(col: Collection, q: string, i: nat, retrieve: Retriever, llm: Answerer): string {
    var documents := retrieve(col, q);
    if documents != [] then Normalize(llm(i, JoinWith(ContextSeparator, documents[0]), q)) else Sentinel
  }

  function ApiValues(col: Collection, qs: seq<string>, retrieve: Retriever, llm: Answerer): (vs: seq<string>)
    ensures |vs| == |qs|
  {
    seq(|qs|, i requires 0 <= i < |qs| => ApiValue(col, qs[i], i, retrieve, llm))
  }

  datatype AskResponse = Answered(answers: map<string, string>) | Failed(status: int)

  /** What ask_questions returns for the document's collection `col`. The
      400 raised for an empty collection is inside the try block, so the
      generic handler turns it into a 500. */
  function AskOutcome(col: Collection, qs: seq<string>, retrieve: Retriever, llm: Answerer): AskResponse {
    if |col| == 0 then Failed(500) else Answered(Collect(qs, ApiValues(col, qs, retrieve, llm)))
  }

  /** ask_questions: opens (creating if needed) the collection pdf_id,
      refuses an empty one, then answers the questions one by one. */
  method AskQuestions(client: Client, questions: seq<string>, pdfId: string, retrieve: Retriever, llm: Answerer)
    returns (resp: AskResponse)
    modifies client
    ensures client.collections == GetOrCreate(old(client.collections), pdfId)
    ensures resp == AskOutcome(client.collections[pdfId], questions, retrieve, llm)
  {
    var manager := new Manager(client, pdfId);
    var count := client.Count(manager.name);
    if count == 0 {
      // HTTPException(status_code=400) is caught by `except Exception`.
      return Failed(500);
    }
    var col := client.collections[manager.name];
    ghost var vs := ApiValues(col, questions, retrieve, llm);
    var answers: map<string, string> := map[];
    for i := 0 to |questions|
      invariant answers == Collect(questions[..i], vs[..i])
    {
      var question := questions[i];
      var documents := retrieve(col, question);
      if documents != [] {
        var context := JoinWith(ContextSeparator, documents[0]);
        var answer := llm(i, context, question);
        if answer != "" && answer != Sentinel {
          answers := answers[question := answer];
        } else {
          answers := answers[question := Sentinel];
        }
      } else {
        answers := answers[question := Sentinel];
      }
      assert questions[..i + 1][..i] == questions[..i] && vs[..i + 1][..i] == vs[..i];
    }
    assert questions[..|questions|] == questions && vs[..|questions|] == vs;
    resp := Answered(answers);
  }

  /** For a non-empty collection every question gets a key, duplicates
      collapsing to one, and the value stored for a question is the one of
      its last occurrence: the sentinel when nothing was retrieved, else the
      model's raw answer when it is neither empty nor the sentinel, else the
      sentinel. */
  lemma AskAnswers(col: Collection, qs: seq<string>, retrieve: Retriever, llm: Answerer, i: int)
    requires |col| > 0 && LastOccurrence(qs, i)
    ensures AskOutcome(col, qs, retrieve, llm).Answered?
    ensures forall q :: q in AskOutcome(col, qs, retrieve, llm).answers <==> q in qs
    ensures retrieve(col, qs[i]) == [] ==> AskOutcome(col, qs, retrieve, llm).answers[qs[i]] == Sentinel
    ensures retrieve(col, qs[i]) != [] ==>
      var answer := llm(i, JoinWith(ContextSeparator, retrieve(col, qs[i])[0]), qs[i]);
      AskOutcome(col, qs, retrieve, llm).answers[qs[i]] == (if answer != "" && answer != Sentinel then answer else Sentinel)
  {
    CollectLastWins(qs, ApiValues(col, qs, retrieve, llm), i);
  }
}

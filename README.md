# PDF question answering: segmentation, indexing and answer aggregation

This project models the core of a retrieval-augmented question-answering
service over PDF documents and proves properties of that model. The service
has two front ends over the same pipeline:

- `app.py`, a stand-alone Gradio app. It keeps every page, cuts pages into
  tiktoken windows, names the vector collection after the uploaded file and
  fills the collection only while it is empty. It strips the model's answers.
- The FastAPI routes in `app/routers/api.py`, backed by:
  - `PDFProcessor`, which keeps only non-empty pages, cuts them into nltk
    word windows joined with single spaces and builds the full text;
  - `EmbeddingsManager`, which writes chunks to a chromadb collection named
    by a fresh document id and keeps the `pdf_summaries` store.

Files:

- `text.dfy` (module `Text`): the Python string operations used.
  - `str.strip`, `str.split` on one character, `str.join`, `str(n)`,
    `str.endswith` and `os.path.basename`.
- `chunking.dfy` (module `Chunking`): the windowing segmenter both
  `tokenize_text` functions share.
  - A `Scheme` holds the tokenizer, the window renderer and the chunk naming.
  - `TokenizeText` is the nested loop. `Tokenize`/`ChunksFrom` specify it, and
    the lemmas prove bounds, coverage, counts, id sequencing and page origin.
- `pdf_processor.py` is modelled by `pdf_processor.dfy` (module `PdfProcessor`):
  - the page filter, the nltk instance of the segmenter and `get_full_text`.
- `store.dfy` (module `Store`): the chromadb client as a class.
  - Its field is a map of named collections. Each collection maps a record id
    to a document and its metadata.
- `embeddings_manager.dfy` (module `EmbeddingsManager`):
  - batch building, the `EmbeddingsManager` class, `add_pdf_summary` and
    `delete_pdf_data`.
- `answers.dfy` (module `Answers`): the parts both front ends share.
  - The `"Data Not Available"` sentinel, answer normalization, and the answers
    dictionary filled question by question, where the last write wins.
- `api.py`'s two routes are modelled by `api.dfy` (module `Api`):
  - `/upload_pdf/` and `/ask_questions/`.
- `app.dfy` (module `App`): `app.py`.
  - Page extraction, the tiktoken instance of the segmenter, question parsing,
    populate-if-empty and the answer loop.

Foreign code becomes parameters:

- PyPDF2's page texts are a `seq<string>`.
- The tokenizers are functions `string -> seq<T>`, plus tiktoken's decode.
- Chromadb retrieval is a function from a collection and a question to the
  returned `documents` lists.
- The answering model is a function of the call's position, the context and
  the question. The position is there so that repeated questions may get
  different answers.
- The fresh document id of an upload is a parameter.

Behaviour of the code worth knowing, which the model keeps:

- Asking about a document whose collection is empty fails with status 500.
  The route raises 400 inside its `try`, and the generic handler turns it
  into a 500.
- `delete_pdf_data` deletes the summary first. Then, if no collection of that
  id exists, it returns False, so the deletion is partial.
- Summaries and chunks are written with chromadb's `add`. An id that is
  already stored keeps its old record.
- The upload route does not compute or record a summary.
- `ask_questions` needs an explicit document id.

## Model

| member | source | states |
|---|---|---|
| Text.Strip | app.py:92 | `str.strip()` gives the empty string exactly when the input is all whitespace, and is never longer than the input |
| Text.StripShape | app.py:92 | the stripped string is the slice between the leading and the trailing whitespace (both blank), and it neither starts nor ends with whitespace |
| Text.StripIdempotent | app.py:130 | stripping an already stripped string changes nothing |
| Text.Split | app.py:92 | `split("\n")` gives at least one part, and no part contains the separator |
| Text.JoinSplit | app.py:92 | joining the parts of a split with the separator gives the string back |
| Text.SplitJoin | app/models/pdf_processor.py:37 | splitting a join of separator-free parts on the separator gives the parts back |
| Text.NatToStringInjective | app/models/pdf_processor.py:40 | different counters print differently |
| Text.Basename | app.py:70 | `os.path.basename` holds no `/`, is a suffix of the path, and is preceded in it by `/` unless it is the whole path |
| Chunking.ChunkIdInjective | app/models/pdf_processor.py:40 | `chunk_a` equals `chunk_b` exactly when a equals b |
| Chunking.WindowsBounded | app/models/pdf_processor.py:35-36 | every window of a page is non-empty and holds at most max_tokens tokens, all but the last exactly max_tokens |
| Chunking.WindowsConcat | app.py:44-46 | concatenating a page's windows in order reproduces the page's token list |
| Chunking.WindowMember | app/models/pdf_processor.py:34-36 | every token of a window is a token of the page |
| Chunking.WindowsCount | app.py:44-45 | a page of n tokens gives ceil(n / max_tokens) windows, so none when n is 0 |
| Chunking.TagAt | app.py:45-54 | the k-th chunk of a page renders its k-th window, carries the page's number and is named by the running counter plus k |
| Chunking.SegmentsAt | app/models/pdf_processor.py:33-35 | the i-th page is tokenized and windowed under its own page number |
| Chunking.AppendPageChunks | app.py:45-54 | the inner loop appends one chunk per window of the page, in order, and advances the counter by the number of windows |
| Chunking.TokenizeText | app.py:41-55 | the nested loop returns the specified chunks: ValueError for a zero step when there is a page, no chunks for a negative step, otherwise every page's windows in order with ids counted across pages |
| Chunking.NumberAppend | app/models/pdf_processor.py:31-45 | numbering two runs of pages is numbering each, the second continuing the count of the first |
| Chunking.ChunksFromAppend | app/models/pdf_processor.py:31-45 | chunking a document in two parts is chunking each part, the ids of the second part continuing from the first |
| Chunking.ChunkIdsSequential | app.py:42-54 | chunk ids are chunk_0, chunk_1, ... in output order and are not reset per page |
| Chunking.NamedChunksDistinct | app/models/pdf_processor.py:40-45 | with an injective naming no two chunks share an id |
| Chunking.ChunkIdsDistinct | app/models/pdf_processor.py:40-45 | with the `chunk_<n>` naming no two chunks of a document share an id |
| Chunking.ChunkIdIsInjective | app/models/pdf_processor.py:40 | the `chunk_<n>` naming is injective |
| Chunking.NumberOrigin | app.py:43-53 | every numbered chunk renders one window of one segment and carries that segment's page number |
| Chunking.ChunkOrigin | app/models/pdf_processor.py:33-42 | every chunk renders one window of one page's tokens and carries that page's number, so no chunk spans two pages |
| Chunking.NumberInPageOrder | app.py:43-53 | over segments with increasing page numbers, chunk page numbers never decrease and none precedes the first segment's |
| Chunking.ChunksInPageOrder | app.py:43-53 | when pages come in increasing page order, the chunks come in page order |
| Chunking.ChunkCount | app.py:43-45 | a document yields the sum over its pages of ceil(tokens / max_tokens) chunks |
| Chunking.TwoPageScenario | app.py:36-55 | pages of 600 and 100 tokens with max_tokens 500 give exactly three chunks: 500 and 100 tokens of page one, then page two, named 0, 1, 2 |
| PdfProcessor.KeptPagesFaithful | app/models/pdf_processor.py:21-24 | each kept page has a 1-based number of a physical page and that page's non-empty text |
| PdfProcessor.KeptPagesIncreasing | app/models/pdf_processor.py:21-24 | kept page numbers strictly increase (and may skip values) |
| PdfProcessor.KeptPagesComplete | app/models/pdf_processor.py:21-24 | no physical page with text is dropped |
| PdfProcessor.ExtractNonEmptyPages | app/models/pdf_processor.py:16-25 | the page loop returns exactly the non-empty pages under their physical numbers |
| PdfProcessor.TokenizeWords | app/models/pdf_processor.py:30-46 | nltk `tokenize_text` returns the specified chunks with windows joined by single spaces |
| PdfProcessor.WordChunksSplitBack | app/models/pdf_processor.py:36-37 | with space-free word tokens, splitting a chunk's text on spaces gives back one window of its page |
| PdfProcessor.GetFullText | app/models/pdf_processor.py:48-52 | the accumulation loop returns each page's text followed by a space, in order |
| PdfProcessor.FullTextAppend | app/models/pdf_processor.py:48-52 | the full text of two runs of pages is the two full texts glued |
| PdfProcessor.FullTextAt | app/models/pdf_processor.py:48-52 | each page's text, then one space, sits between the full texts of the pages before and after it |
| PdfProcessor.FullTextLength | app/models/pdf_processor.py:48-52 | the full text's length is the sum of len(text) + 1 over the pages, and no pages give "" |
| Store.GetOrCreate | app/models/embeddings_manager.py:16-19 | get_or_create keeps every existing collection and adds an empty one only when the name is new |
| Store.AddAllKeeps | app/models/embeddings_manager.py:30 | `add` keeps every stored record and stores exactly the given ids in addition |
| Store.AddAllStores | app/models/embeddings_manager.py:30 | a new id of a batch with distinct ids is stored with its own document and metadata |
| Store.AddAllCount | app/models/embeddings_manager.py:30 | n distinct ids added to an empty collection give n records |
| Store.DistinctCard | app/models/embeddings_manager.py:23 | a list of distinct ids has as many distinct ids as entries |
| Store.Client.constructor | app/models/embeddings_manager.py:10 | a client opened on the persist directory holds exactly the collections stored there |
| Store.Client.GetOrCreateCollection | app/models/embeddings_manager.py:52-53 | the collection exists afterwards, and nothing else changes |
| Store.Client.Count | app/routers/api.py:56 | the number of records in the collection |
| Store.Client.Add | app/models/embeddings_manager.py:30 | only the named collection changes, by `add` |
| Store.Client.Contains | app/models/embeddings_manager.py:73-75 | found exactly when the id is stored |
| Store.Client.Delete | app/models/embeddings_manager.py:79 | only that id of that collection is removed |
| Store.Client.ListNames | app/models/embeddings_manager.py:84-85 | the names of all collections |
| Store.Client.DeleteCollection | app/models/embeddings_manager.py:91 | only that collection is removed |
| EmbeddingsManager.BuildBatch | app/models/embeddings_manager.py:23-28 | ids, documents and metadatas are as long as the chunk list, index-aligned, in chunk order, each metadata holding exactly the chunk's id and page number |
| EmbeddingsManager.BatchRoundTrip | app/models/embeddings_manager.py:23-28 | the three lists lose nothing: the chunks are read back from them |
| EmbeddingsManager.PopulatedEmpty | app/models/embeddings_manager.py:21-30 | chunks with distinct ids, added to an empty collection, give exactly one record per chunk holding its text and {chunk_id, page_number} |
| EmbeddingsManager.Manager.constructor | app/models/embeddings_manager.py:14-19 | the manager names the collection pdf_id, which exists afterwards |
| EmbeddingsManager.Manager.UpdateEmbeddings | app/models/embeddings_manager.py:21-37 | only the manager's collection changes: the chunk batch is added to it |
| EmbeddingsManager.AddPdfSummary | app/models/embeddings_manager.py:56-60 | the summary collection is created if needed and the summary is added under pdf_id |
| EmbeddingsManager.SummaryAdded | app/models/embeddings_manager.py:56-60 | afterwards a summary for pdf_id exists: a new one holds the summary with metadata {pdf_id}, an existing one is kept, and other summaries and collections are unchanged |
| EmbeddingsManager.DeletePdfData | app/models/embeddings_manager.py:69-92 | the result and the new collections are those of the purge step sequence |
| EmbeddingsManager.PurgeWithoutSummary | app/models/embeddings_manager.py:72-76 | without a summary: False, and nothing changes except that an empty summary collection may be created |
| EmbeddingsManager.PurgePartial | app/models/embeddings_manager.py:79-88 | with a summary but no collection: the summary is gone, yet the result is False |
| EmbeddingsManager.PurgeDeletedIff | app/models/embeddings_manager.py:69-92 | True exactly when both the summary and the collection existed |
| EmbeddingsManager.PurgeEffect | app/models/embeddings_manager.py:79-92 | for any pdf_id other than "pdf_summaries": afterwards the summary is gone, after True the collection is gone too, and other summaries and collections are unchanged |
| EmbeddingsManager.PurgeSummaryStore | app/models/embeddings_manager.py:79-92 | for the pdf_id "pdf_summaries" with a summary under that id: the record is deleted, the summary store itself is then found and deleted as a collection, and the result is True |
| Answers.Normalize | app/routers/api.py:70-73 | the stored value is the answer itself exactly when it is non-empty, and the sentinel exactly when the answer is empty or the sentinel |
| Answers.Collect | app/routers/api.py:62-75 | the dictionary has a key exactly for each question, duplicates collapsing to one key |
| Answers.CollectLastWins | app/routers/api.py:64-75 | a question's value is the one computed at its last occurrence |
| Answers.HasLastOccurrence | app/routers/api.py:64 | every listed question has a last occurrence |
| Answers.CollectValues | app/routers/api.py:64-75 | every value is the one computed at some occurrence of its question |
| Api.UploadPdf | app/routers/api.py:18-45 | a file name not ending in ".pdf" gets 400 and nothing changes; otherwise extract, tokenize with 500 and update_embeddings run in that order on the collection named by the new id |
| Api.FreshUpload | app/routers/api.py:25-41 | an upload under a new id creates a collection of exactly one record per chunk and leaves every other collection unchanged |
| Api.AskQuestions | app/routers/api.py:51-79 | the collection pdf_id exists afterwards; an empty one gives 500, otherwise the answers dictionary built question by question |
| Api.AskAnswers | app/routers/api.py:64-75 | every question gets a key; its value is the sentinel when nothing is retrieved, otherwise the raw answer to the top documents joined with a blank line when it is neither empty nor the sentinel |
| App.AllPages | app.py:27-31 | one page per physical page, numbered 1..n in order, empty ones included |
| App.ExtractTextFromPdf | app.py:21-33 | the page loop returns exactly those pages |
| App.TokenizeTokens | app.py:36-55 | tiktoken `tokenize_text` returns the specified chunks with windows decoded |
| App.KeepQuestionsMembers | app.py:92 | a question is listed exactly when it is the non-empty stripped form of some line |
| App.StripKeepsOut | app.py:92 | stripping never introduces a character |
| App.KeptQuestionShape | app.py:92 | a kept question is non-empty, already stripped and holds no newline |
| App.QuestionListShape | app.py:92 | every question parsed from the input is non-empty, stripped and newline-free |
| App.PreparedCollection | app.py:70-90 | a collection with records is reused unchanged; a missing or empty one ends up with exactly one record per chunk; other collections are unchanged |
| App.AnswerOne | app.py:96-136 | one pass gives the sentinel when nothing is retrieved, else the stripped answer when non-empty and not the sentinel, else the sentinel |
| App.AnswerEach | app.py:93-136 | the loop builds the dictionary of each question's value, the last occurrence winning |
| App.AnswerQuestions | app.py:58-138 | no file or blank questions give the guidance message and change nothing; otherwise the base-name collection is prepared and the answers are built |
| App.AppAnswers | app.py:92-136 | every listed question gets a key, decided by its last occurrence, and every value is the sentinel or a non-empty answer with no surrounding whitespace |

## Left out

- PDF parsing, nltk and tiktoken are foreign libraries, so they are parameters. `nltk.download` is not modelled.
- Embedding computation, similarity ranking and distances are left out: they are floating-point work in an opaque library. Retrieval is a parameter.
- The answering models (OpenAI, Anthropic) and prompt formatting are network calls, so they are left out. An answer is an arbitrary string.
- `query_embeddings`'s `n_results` and `include` arguments, and `query_pdf_summaries`, only shape retrieval, which is a parameter.
- Temp-file writing and removal, `uuid` generation, `json.dumps` of the answers, logging, the Gradio UI and the FastAPI wiring are I/O and plumbing.
- Exceptions raised by the foreign libraries, and the 500 / "An error occurred" paths they lead to, are left out. This includes chromadb's own rejections, such as an empty batch or duplicate ids within one batch.
- Api.UploadPdf: always returns the new id on a ".pdf" name, because the failures behind its 500 path all come from foreign code.
- Chunking.TokenizeText: a zero step is an error only when there is a page to loop over, as in Python. The specification function `WindowsFrom` gives no windows for a zero size, so it stays total.
- Environment overrides of `MAX_TOKENS` are left out: the model uses its default, 500, which the routes always pass.

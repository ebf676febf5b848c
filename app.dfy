/** app.py: the stand-alone Gradio version of the pipeline. Every page is
    kept, chunks are cut from tiktoken tokens, the collection is named after
    the uploaded file's base name and is filled only while it is empty, and
    the model's answers are stripped before they are stored. The PDF's page
    texts, the tokenizer, retrieval and the answering model are parameters. */
module App {
  import opened Text
  import opened Chunking
  import opened Store
  import opened EmbeddingsManager
  import opened Answers

  datatype Option<T> = None | Some(value: T)

  /** The message returned when no file or no question is given. */
  const Guidance: string := "Please upload a PDF and enter at least one question."

  /** The max_tokens default of tokenize_text, the only value passed. */
  const AppMaxTokens: int := 500

  /** The pages extract_text_from_pdf returns for the page texts `raw`: every
      page, empty or not, numbered from 1 in order. */
  function AllPages(raw: seq<string>): (pages: seq<Page>)
    ensures |pages| == |raw|
    ensures forall k :: 0 <= k < |raw| ==> pages[k] == Page(k + 1, raw[k])
    decreases |raw|
  {
    if raw == [] then []
    else AllPages(raw[..|raw| - 1]) + [Page(|raw|, raw[|raw| - 1])]
  }

  /** extract_text_from_pdf: appends {page_number, text} for every page. */
  method ExtractTextFromPdf(raw: seq<string>) returns (pages: seq<Page>)
    ensures pages == AllPages(raw)
  {
    pages := [];
    for i := 0 to |raw|
      invariant pages == AllPages(raw[..i])
    {
      pages := pages + [Page(i + 1, raw[i])];
      assert raw[..i + 1][..i] == raw[..i];
    }
    assert raw[..|raw|] == raw;
  }

  /** The tiktoken chunking: `encode` and `decode` are the gpt-4o-mini
      encoding's, ids are chunk_<n>. */
  function TiktokenScheme(encode: string -> seq<int>, decode: seq<int> -> string): Scheme<int> {
    Scheme(encode, decode, ChunkId)
  }

  /** tokenize_text(page_texts, max_tokens). */
  method TokenizeTokens(pages: seq<Page>, maxTokens: int, encode: string -> seq<int>, decode: seq<int> -> string)
    returns (r: Outcome)
    ensures r == Tokenize(pages, maxTokens, TiktokenScheme(encode, decode))
  {
    r := TokenizeText(pages, maxTokens, TiktokenScheme(encode, decode));
  }

  /** `[q.strip() for q in lines if q.strip()]` */
  function KeepQuestions(lines: seq<string>): seq<string>
    decreases |lines|
  {
    if lines == [] then []
    else (if Strip(lines[0]) != "" then [Strip(lines[0])] else []) + KeepQuestions(lines[1..])
  }

  /** The question list: the stripped input split on newlines, each line
      stripped, blank lines dropped. */
  function QuestionList(questions: string): seq<string> {
    KeepQuestions(Split(Strip(questions), '\n'))
  }

  /** A question is kept exactly when it is the non-empty stripped form of
      one of the lines. */
  lemma {:induction false} KeepQuestionsMembers(lines: seq<string>, q: string)
    ensures q in KeepQuestions(lines) <==> q != "" && exists j :: 0 <= j < |lines| && Strip(lines[j]) == q
    decreases |lines|
  {
    if lines != [] {
      KeepQuestionsMembers(lines[1..], q);
      if q != "" && exists j :: 0 <= j < |lines| && Strip(lines[j]) == q {
        var j :| 0 <= j < |lines| && Strip(lines[j]) == q;
        if j > 0 {
          assert Strip(lines[1..][j - 1]) == q;
        }
      }
    }
  }

  /** Stripping never introduces a character. */
  lemma StripKeepsOut(s: string, c: char)
    requires c !in s
    ensures c !in Strip(s)
  {
    var a := StripStart(s);
    var r := Strip(s);
    StripShape(s);
    forall k | 0 <= k < |r|
      ensures r[k] != c
    {
      assert r[k] == s[a + k];
    }
  }

  /** A kept question is a non-empty, already stripped line holding no
      newline. */
  lemma KeptQuestionShape(lines: seq<string>, q: string)
    requires forall j :: 0 <= j < |lines| ==> '\n' !in lines[j]
    requires q in KeepQuestions(lines)
    ensures q != "" && Strip(q) == q && '\n' !in q
  {
    KeepQuestionsMembers(lines, q);
    var j :| 0 <= j < |lines| && Strip(lines[j]) == q;
    StripIdempotent(lines[j]);
    StripKeepsOut(lines[j], '\n');
  }

  /** Every question in the list is one non-empty, already stripped line of
      the input: it holds no newline. */
  lemma QuestionListShape(questions: string)
    ensures forall i :: 0 <= i < |QuestionList(questions)| ==>
      var q := QuestionList(questions)[i];
      q != "" && Strip(q) == q && '\n' !in q
  {
    var lines := Split(Strip(questions), '\n');
    var qs := KeepQuestions(lines);
    assert QuestionList(questions) == qs;
    forall i | 0 <= i < |qs|
      ensures qs[i] != "" && Strip(qs[i]) == qs[i] && '\n' !in qs[i]
    {
      KeptQuestionShape(lines, qs[i]);
    }
  }

  /** The chunks app.py stores for the page texts `raw`. */
  function AppChunks(raw: seq<string>, encode: string -> seq<int>, decode: seq<int> -> string): seq<Chunk> {
    ChunksFrom(AllPages(raw), AppMaxTokens, TiktokenScheme(encode, decode), 0)
  }

  /** The collections once the collection `name` exists and, if it was
      empty, has been filled with the document's chunks. */
  function Prepared(cols: map<string, Collection>, name: string, raw: seq<string>,
                    encode: string -> seq<int>, decode: seq<int> -> string): map<string, Collection>
  {
    var c := GetOrCreate(cols, name);
    if |c[name]| == 0 then c[name := Populated(c[name], AppChunks(raw, encode, decode))] else c
  }

  /** A collection that holds records is reused as it is; a missing or
      empty one ends up with exactly one record per chunk. Either way no
      other collection changes. */
  lemma PreparedCollection(cols: map<string, Collection>, name: string, raw: seq<string>,
                           encode: string -> seq<int>, decode: seq<int> -> string)
    ensures name in cols && |cols[name]| > 0 ==> Prepared(cols, name, raw, encode, decode) == cols
    ensures name !in cols || |cols[name]| == 0 ==>
      var col := Prepared(cols, name, raw, encode, decode)[name];
      var chunks := AppChunks(raw, encode, decode);
      && |col| == |chunks|
      && forall k :: 0 <= k < |chunks| ==>
           chunks[k].chunkId in col && col[chunks[k].chunkId] == Entry(chunks[k].text, ChunkMeta(chunks[k].chunkId, chunks[k].pageNumber))
    ensures forall n :: n in cols && n != name ==>
      n in Prepared(cols, name, raw, encode, decode) && Prepared(cols, name, raw, encode, decode)[n] == cols[n]
  {
    if name !in cols || |cols[name]| == 0 {
      assert GetOrCreate(cols, name)[name] == map[];
      ChunkIdsDistinct(AllPages(raw), AppMaxTokens, encode, decode);
      PopulatedEmpty(AppChunks(raw, encode, decode));
    }
  }

  /** The stored answer for the i-th question: the sentinel when nothing is
      retrieved, otherwise the model's answer, stripped, normalized. */
  function AppValue(col: Collection, q: string, i: nat,
                    retrieve: (Collection, string) -> seq<seq<string>>, llm: (nat, string, string) -> string): string
  {
    var documents := retrieve(col, q);
    if documents != [] then Normalize(Strip(llm(i, JoinWith(ContextSeparator, documents[0]), q))) else Sentinel
  }

  function AppValues(col: Collection, qs: seq<string>,
                     retrieve: (Collection, string) -> seq<seq<string>>, llm: (nat, string, string) -> string): (vs: seq<string>)
    ensures |vs| == |qs|
  {
    seq(|qs|, i requires 0 <= i < |qs| => AppValue(col, qs[i], i, retrieve, llm))
  }

  /** What answer_questions returns: the guidance text, or the answers
      dictionary (json.dumps of it is not modelled). */
  datatype Reply = Guide(message: string) | AnswerSet(answers: map<string, string>)

  /** One pass of the question loop: query the collection, ask the model
      about the top documents, keep the stripped answer or the sentinel. */
  method AnswerOne(col: Collection, question: string, i: nat,
                   retrieve: (Collection, string) -> seq<seq<string>>, llm: (nat, string, string) -> string)
    returns (value: string)
    ensures value == AppValue(col, question, i, retrieve, llm)
  {
    var documents := retrieve(col, question);
    if documents != [] {
      var context := JoinWith(ContextSeparator, documents[0]);
      var answer := Strip(llm(i, context, question));
      if answer != "" && answer != Sentinel {
        value := answer;
      } else {
        value := Sentinel;
      }
    } else {
      value := Sentinel;
    }
  }

  /** The question loop of answer_questions: each question's value is
      stored under the question, a later duplicate overwriting. */
  method AnswerEach(col: Collection, questionList: seq<string>,
                    retrieve: (Collection, string) -> seq<seq<string>>, llm: (nat, string, string) -> string)
    returns (answers: map<string, string>)
    ensures answers == Collect(questionList, AppValues(col, questionList, retrieve, llm))
  {
    ghost var vs := AppValues(col, questionList, retrieve, llm);
    answers := map[];
    for i := 0 to |questionList|
      invariant answers == Collect(questionList[..i], vs[..i])
    {
      var question := questionList[i];
      var value := AnswerOne(col, question, i, retrieve, llm);
      answers := answers[question := value];
      assert questionList[..i + 1][..i] == questionList[..i] && vs[..i + 1][..i] == vs[..i];
    }
    assert questionList[..|questionList|] == questionList && vs[..|questionList|] == vs;
  }

  /** answer_questions(pdf_file, questions): `raw` are the page texts of
      pdf_file. */
  method AnswerQuestions(client: Client, pdfFile: Option<string>, raw: seq<string>, questions: string,
                         encode: string -> seq<int>, decode: seq<int> -> string,
                         retrieve: (Collection, string) -> seq<seq<string>>, llm: (nat, string, string) -> string)
    returns (reply: Reply)
    modifies client
    ensures pdfFile.None? || Blank(questions) ==>
      reply == Guide(Guidance) && client.collections == old(client.collections)
    ensures pdfFile.Some? && !Blank(questions) ==>
      var name := Basename(pdfFile.value);
      var qs := QuestionList(questions);
      && client.collections == Prepared(old(client.collections), name, raw, encode, decode)
      && reply == AnswerSet(Collect(qs, AppValues(client.collections[name], qs, retrieve, llm)))
  {
    if pdfFile.None? || Strip(questions) == "" {
      return Guide(Guidance);
    }
    var name := Basename(pdfFile.value);
    client.GetOrCreateCollection(name);
    var count := client.Count(name);
    if count == 0 {
      var pages := ExtractTextFromPdf(raw);
      var outcome := TokenizeTokens(pages, AppMaxTokens, encode, decode);
      var b := BuildBatch(outcome.chunks);
      client.Add(name, b.ids, b.documents, b.metadatas);
    }
    var questionList := KeepQuestions(Split(Strip(questions), '\n'));
    var answers := AnswerEach(client.collections[name], questionList, retrieve, llm);
    reply := AnswerSet(answers);
  }

  /** Every listed question gets a key and nothing else does; each value is
      the sentinel or a non-empty answer with no surrounding whitespace, and
      the value for a question is decided by its last occurrence. */
  lemma AppAnswers(col: Collection, qs: seq<string>,
                   retrieve: (Collection, string) -> seq<seq<string>>, llm: (nat, string, string) -> string, i: int)
    requires LastOccurrence(qs, i)
    ensures forall q :: q in Collect(qs, AppValues(col, qs, retrieve, llm)) <==> q in qs
    ensures Collect(qs, AppValues(col, qs, retrieve, llm))[qs[i]] == AppValue(col, qs[i], i, retrieve, llm)
    ensures var v := Collect(qs, AppValues(col, qs, retrieve, llm))[qs[i]];
      v == Sentinel || (v != "" && Strip(v) == v)
  {
    CollectLastWins(qs, AppValues(col, qs, retrieve, llm), i);
    var documents := retrieve(col, qs[i]);
    if documents != [] {
      StripIdempotent(llm(i, JoinWith(ContextSeparator, documents[0]), qs[i]));
    }
  }
}

/** app/models/pdf_processor.py: the PDFProcessor, which keeps the non-empty
    pages of a PDF, cuts them into chunks of nltk word tokens joined with
    single spaces, and glues the page texts into one full text. The class
    has no state, so its methods are module-level methods here. */
module PdfProcessor {
  import opened Text
  import opened Chunking

  /** Config.MAX_TOKENS when the environment does not override it. */
  const DefaultMaxTokens: int := 500

  /** The pages extract_text_from_pdf keeps from the physical pages `raw`
      (raw[i] is the text PyPDF2 extracts from page i + 1): the pages whose
      text is not empty, each under its 1-based physical number. */
  function KeptPages(raw: seq<string>): seq<Page>
    decreases |raw|
  {
    if raw == [] then []
    else
      var n := |raw|;
      KeptPages(raw[..n - 1]) + (if raw[n - 1] != "" then [Page(n, raw[n - 1])] else [])
  }

  /** Every kept page carries the non-empty text of the physical page its
      number names. */
  predicate FaithfulTo(pages: seq<Page>, raw: seq<string>) {
    forall k :: 0 <= k < |pages| ==>
      && 1 <= pages[k].pageNumber <= |raw|
      && pages[k].text == raw[pages[k].pageNumber - 1]
      && pages[k].text != ""
  }

  /** Page numbers strictly increase (and so may skip values). */
  predicate StrictlyIncreasing(pages: seq<Page>) {
    forall i, j :: 0 <= i < j < |pages| ==> pages[i].pageNumber < pages[j].pageNumber
  }

  /** Every physical page with text is kept. */
  predicate KeepsAll(pages: seq<Page>, raw: seq<string>) {
    forall i :: 0 <= i < |raw| && raw[i] != "" ==>
      exists k :: 0 <= k < |pages| && pages[k].pageNumber == i + 1
  }

  /** Every kept page holds the non-empty text of the physical page its
      1-based number names. */
  lemma {:induction false} KeptPagesFaithful(raw: seq<string>)
    ensures FaithfulTo(KeptPages(raw), raw)
    decreases |raw|
  {
    if raw != [] {
      var n := |raw|;
      var prefix := raw[..n - 1];
      var before := KeptPages(prefix);
      var pages := KeptPages(raw);
      KeptPagesFaithful(prefix);
      forall k | 0 <= k < |pages|
        ensures 1 <= pages[k].pageNumber <= n
        ensures pages[k].text == raw[pages[k].pageNumber - 1] && pages[k].text != ""
      {
        if k < |before| {
          assert pages[k] == before[k];
          assert prefix[before[k].pageNumber - 1] == raw[before[k].pageNumber - 1];
        }
      }
    }
  }

  /** The kept pages are in strictly increasing page order. */
  lemma {:induction false} KeptPagesIncreasing(raw: seq<string>)
    ensures StrictlyIncreasing(KeptPages(raw))
    decreases |raw|
  {
    if raw != [] {
      var n := |raw|;
      var prefix := raw[..n - 1];
      var before := KeptPages(prefix);
      var pages := KeptPages(raw);
      KeptPagesIncreasing(prefix);
      KeptPagesFaithful(prefix);
      forall i, j | 0 <= i < j < |pages|
        ensures pages[i].pageNumber < pages[j].pageNumber
      {
        assert pages[i] == before[i];
        if j < |before| {
          assert pages[j] == before[j];
        }
      }
    }
  }

  /** No physical page with text is dropped. */
  lemma {:induction false} KeptPagesComplete(raw: seq<string>)
    ensures KeepsAll(KeptPages(raw), raw)
    decreases |raw|
  {
    if raw != [] {
      var n := |raw|;
      var prefix := raw[..n - 1];
      var before := KeptPages(prefix);
      var pages := KeptPages(raw);
      KeptPagesComplete(prefix);
      forall i | 0 <= i < n && raw[i] != ""
        ensures exists k :: 0 <= k < |pages| && pages[k].pageNumber == i + 1
      {
        if i < n - 1 {
          assert prefix[i] == raw[i];
          var k :| 0 <= k < |before| && before[k].pageNumber == i + 1;
          assert pages[k] == before[k];
        } else {
          assert pages[|before|].pageNumber == n;
        }
      }
    }
  }

  /** PDFProcessor.extract_text_from_pdf: walks the physical pages in order
      and appends {page_number, text} for each page whose text is not empty. */
  method ExtractNonEmptyPages(raw: seq<string>) returns (pages: seq<Page>)
    ensures pages == KeptPages(raw)
  {
    pages := [];
    var i := 0;
    while i < |raw|
      invariant 0 <= i <= |raw|
      invariant pages == KeptPages(raw[..i])
    {
      var text := raw[i];
      if text != "" {
        pages := pages + [Page(i + 1, text)];
      }
      i := i + 1;
      assert raw[..i][..i - 1] == raw[..i - 1];
    }
    assert raw[..i] == raw;
  }

  /** " ".join(words) */
  function JoinSpace(words: seq<string>): string {
    JoinWith(" ", words)
  }

  /** The nltk chunking: word tokens, windows joined with single spaces,
      ids chunk_<n>. */
  function WordScheme(wordTokenize: string -> seq<string>): Scheme<string> {
    Scheme(wordTokenize, JoinSpace, ChunkId)
  }

  /** PDFProcessor.tokenize_text with nltk.word_tokenize as `wordTokenize`;
      callers that omit max_tokens pass DefaultMaxTokens. */
  method TokenizeWords(pages: seq<Page>, maxTokens: int, wordTokenize: string -> seq<string>)
    returns (r: Outcome)
    ensures r == Tokenize(pages, maxTokens, WordScheme(wordTokenize))
  {
    r := TokenizeText(pages, maxTokens, WordScheme(wordTokenize));
  }

  /** Word tokens never contain a space. */
  ghost predicate SpaceFree(wordTokenize: string -> seq<string>) {
    forall t: string, w: string :: w in wordTokenize(t) ==> ' ' !in w
  }

  /** The chunk's text splits back, on ' ', into one of the page's windows. */
  ghost predicate SplitsToWindow(c: Chunk, page: Page, size: nat, wordTokenize: string -> seq<string>) {
    var ws := Windows(wordTokenize(page.text), size);
    c.pageNumber == page.pageNumber && exists m :: 0 <= m < |ws| && Split(c.text, ' ') == ws[m]
  }

  /** With space-free word tokens, every chunk's text is exactly the words of
      one window of its page joined with single spaces: splitting it on ' '
      gives that window back. */
  lemma WordChunksSplitBack(pages: seq<Page>, size: nat, wordTokenize: string -> seq<string>, k: nat)
    requires size > 0 && SpaceFree(wordTokenize)
    requires k < |ChunksFrom(pages, size, WordScheme(wordTokenize), 0)|
    ensures exists j :: (0 <= j < |pages|
      && SplitsToWindow(ChunksFrom(pages, size, WordScheme(wordTokenize), 0)[k], pages[j], size, wordTokenize))
  {
    var sch := WordScheme(wordTokenize);
    var c := ChunksFrom(pages, size, sch, 0)[k];
    ChunkOrigin(pages, size, sch, 0, k);
    var j :| 0 <= j < |pages| && FromPage(c, pages[j], size, sch);
    var tokens := wordTokenize(pages[j].text);
    var ws := Windows(tokens, size);
    var m :| 0 <= m < |ws| && c.text == JoinSpace(ws[m]);
    WindowsBounded(tokens, size, 0);
    forall i | 0 <= i < |ws[m]|
      ensures ' ' !in ws[m][i]
    {
      WindowMember(tokens, size, 0, m, ws[m][i]);
    }
    SplitJoin(ws[m], ' ');
    assert SplitsToWindow(c, pages[j], size, wordTokenize);
  }

  /** The full text: each page's text followed by one space, in page order. */
  function FullText(pages: seq<Page>): string
    decreases |pages|
  {
    if pages == [] then "" else FullText(pages[..|pages| - 1]) + pages[|pages| - 1].text + " "
  }

  /** PDFProcessor.get_full_text: accumulates text + " " page by page. */
  method GetFullText(pages: seq<Page>) returns (fullText: string)
    ensures fullText == FullText(pages)
  {
    fullText := "";
    var i := 0;
    while i < |pages|
      invariant 0 <= i <= |pages|
      invariant fullText == FullText(pages[..i])
    {
      fullText := fullText + pages[i].text + " ";
      i := i + 1;
      assert pages[..i][..i - 1] == pages[..i - 1];
    }
    assert pages[..i] == pages;
  }

  /** The full text of two runs of pages is the two full texts, glued. */
  lemma {:induction false} FullTextAppend(a: seq<Page>, b: seq<Page>)
    ensures FullText(a + b) == FullText(a) + FullText(b)
    decreases |b|
  {
    if b == [] {
      assert a + b == a;
    } else {
      var n := |b|;
      assert (a + b)[..|a + b| - 1] == a + b[..n - 1];
      FullTextAppend(a, b[..n - 1]);
    }
  }

  /** Each page's text appears in the full text, between the full texts of
      the pages before it and after it, followed by one space. */
  lemma FullTextAt(pages: seq<Page>, k: nat)
    requires k < |pages|
    ensures FullText(pages) == FullText(pages[..k]) + pages[k].text + " " + FullText(pages[k + 1..])
  {
    var a, b := pages[..k + 1], pages[k + 1..];
    assert a + b == pages;
    FullTextAppend(a, b);
    assert |a| == k + 1 && a[..|a| - 1] == pages[..k] && a[|a| - 1] == pages[k];
    assert FullText(a) == FullText(pages[..k]) + pages[k].text + " ";
  }

  /** The number of characters the pages contribute: len(text) + 1 each. */
  function TextTotal(pages: seq<Page>): nat
    decreases |pages|
  {
    if pages == [] then 0 else |pages[0].text| + 1 + TextTotal(pages[1..])
  }

  /** The full text is as long as the pages' texts plus one space per page;
      no pages give "". */
  lemma {:induction false} FullTextLength(pages: seq<Page>)
    ensures |FullText(pages)| == TextTotal(pages)
    ensures pages == [] ==> FullText(pages) == ""
    decreases |pages|
  {
    if pages != [] {
      FullTextAt(pages, 0);
      assert pages[..0] == [];
      FullTextLength(pages[1..]);
    }
  }
}

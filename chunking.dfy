/** The document segmenter shared by app.py and app/models/pdf_processor.py:
    every page's text is tokenized and its token list is cut into consecutive,
    non-overlapping windows of at most max_tokens tokens; each window becomes
    a chunk with a sequential id "chunk_<n>" counted over the whole document
    and the number of the page it came from.

    The tokenizer (tiktoken or nltk), the way a window is turned back into
    text (tiktoken's decode, or " ".join) and the naming of chunk n are
    gathered in a Scheme; both tokenize_text functions use ChunkId. */
module Chunking {
  import opened Text

  /** One extracted page: {"page_number": ..., "text": ...}. */
  datatype Page = Page(pageNumber: int, text: string)

  /** One chunk: {"chunk_id": ..., "text": ..., "page_number": ...}. */
  datatype Chunk = Chunk(chunkId: string, text: string, pageNumber: int)

  /** The result of tokenize_text: the chunks, or the ValueError that
      Python's range raises when its step (max_tokens) is zero. */
  datatype Outcome = Chunks(chunks: seq<Chunk>) | ZeroStep

  /** How a page is tokenized, how a window of tokens becomes chunk text, and
      how the n-th chunk is named. */
  datatype Scheme<!T> = Scheme(encode: string -> seq<T>, render: seq<T> -> string, name: nat -> string)

  /** f"chunk_{n}" */
  function ChunkId(n: nat): string {
    "chunk_" + NatToString(n)
  }

  /** Two counters give the same chunk id only when they are equal. */
  lemma ChunkIdInjective(a: nat, b: nat)
    ensures ChunkId(a) == ChunkId(b) <==> a == b
  {
    if ChunkId(a) == ChunkId(b) {
      assert NatToString(a) == ChunkId(a)[6..] == ChunkId(b)[6..] == NatToString(b);
      NatToStringInjective(a, b);
    }
  }

  function Min(a: int, b: int): int {
    if a <= b then a else b
  }

  /** The slices tokens[i:i+size], tokens[i+size:i+2*size], ... that
      `for i in range(start, len(tokens), size)` visits, Python's slicing
      clipping the last one at the end of the list. */
  function WindowsFrom<T>(tokens: seq<T>, size: nat, start: nat): seq<seq<T>>
    decreases |tokens| - start
  {
    if size == 0 || start >= |tokens| then []
    else [tokens[start..Min(start + size, |tokens|)]] + WindowsFrom(tokens, size, start + size)
  }

  function Windows<T>(tokens: seq<T>, size: nat): seq<seq<T>>
  {
    WindowsFrom(tokens, size, 0)
  }

  /** Concatenation of a list of token lists. */
  function Concat<T>(ws: seq<seq<T>>): seq<T>
    decreases |ws|
  {
    if ws == [] then [] else ws[0] + Concat(ws[1..])
  }

  /** Every window is non-empty and holds at most `size` tokens, and every
      window but the last holds exactly `size`. */
  predicate WellSized<T>(ws: seq<seq<T>>, size: nat) {
    && (forall k :: 0 <= k < |ws| ==> 0 < |ws[k]| <= size)
    && (forall k :: 0 <= k < |ws| - 1 ==> |ws[k]| == size)
  }

  lemma {:induction false} WindowsBounded<T>(tokens: seq<T>, size: nat, start: nat)
    requires size > 0
    ensures WellSized(WindowsFrom(tokens, size, start), size)
    decreases |tokens| - start
  {
    if start < |tokens| {
      var end := Min(start + size, |tokens|);
      var ws := WindowsFrom(tokens, size, start);
      var rest := WindowsFrom(tokens, size, start + size);
      WindowsBounded(tokens, size, start + size);
      assert ws == [tokens[start..end]] + rest;
      assert |ws[0]| == end - start;
      assert rest != [] ==> end == start + size;
      forall k | 0 <= k < |ws|
        ensures 0 < |ws[k]| <= size
        ensures k < |ws| - 1 ==> |ws[k]| == size
      {
        if k > 0 {
          assert ws[k] == rest[k - 1];
        }
      }
    }
  }

  /** Concatenating the windows in order gives back the token list: the
      windows cover every token once and do not overlap. */
  lemma {:induction false} WindowsConcat<T>(tokens: seq<T>, size: nat, start: nat)
    requires size > 0 && start <= |tokens|
    ensures Concat(WindowsFrom(tokens, size, start)) == tokens[start..]
    decreases |tokens| - start
  {
    if start < |tokens| {
      var ws := WindowsFrom(tokens, size, start);
      var end := Min(start + size, |tokens|);
      WindowsConcat(tokens, size, end);
      assert ws[1..] == WindowsFrom(tokens, size, end) by {
        if start + size > |tokens| {
          assert WindowsFrom(tokens, size, start + size) == [] == WindowsFrom(tokens, size, end);
        }
      }
      assert tokens[start..] == tokens[start..end] + tokens[end..];
    }
  }

  /** Every token of a window is a token of the page. */
  lemma {:induction false} WindowMember<T>(tokens: seq<T>, size: nat, start: nat, m: nat, x: T)
    requires m < |WindowsFrom(tokens, size, start)| && x in WindowsFrom(tokens, size, start)[m]
    ensures x in tokens
    decreases m
  {
    var ws := WindowsFrom(tokens, size, start);
    var rest := WindowsFrom(tokens, size, start + size);
    assert ws == [tokens[start..Min(start + size, |tokens|)]] + rest;
    if m > 0 {
      assert ws[m] == rest[m - 1];
      WindowMember(tokens, size, start + size, m - 1, x);
    }
  }

  lemma {:induction false} MulAtLeast(d: int, k: int)
    requires d > 0 && k >= 1
    ensures d * k >= d
    decreases k
  {
    if k > 1 {
      MulAtLeast(d, k - 1);
      assert d * k == d * (k - 1) + d;
    }
  }

  lemma ProductGap(d: int, a: int, b: int)
    requires d > 0 && a > b
    ensures d * a >= d * b + d
  {
    MulAtLeast(d, a - b);
    assert d * (a - b) == d * a - d * b;
  }

  /** Euclidean division is determined by quotient and remainder. */
  lemma DivUnique(y: int, d: int, q: int, r: int)
    requires d > 0 && 0 <= r < d && y == d * q + r
    ensures y / d == q
  {
    var q2 := y / d;
    if q2 > q {
      ProductGap(d, q2, q);
      assert false;
    } else if q2 < q {
      ProductGap(d, q, q2);
      assert false;
    }
  }

  /** A page of n tokens gives ceil(n / size) windows; none when n is 0. */
  lemma {:induction false} WindowsCount<T>(tokens: seq<T>, size: nat, start: nat)
    requires size > 0 && start <= |tokens|
    ensures |WindowsFrom(tokens, size, start)| == (|tokens| - start + size - 1) / size
    decreases |tokens| - start
  {
    var n := |tokens| - start;
    if n == 0 {
      DivUnique(size - 1, size, 0, size - 1);
    } else if n <= size {
      assert WindowsFrom(tokens, size, start + size) == [];
      DivUnique(n + size - 1, size, 1, n - 1);
    } else {
      WindowsCount(tokens, size, start + size);
      var q := (n - size + size - 1) / size;
      DivUnique(n + size - 1, size, q + 1, (n - size + size - 1) % size);
    }
  }

  /** The chunks made from one page's windows, numbered from firstId. */
  function Tag<T>(windows: seq<seq<T>>, sch: Scheme<T>, pageNumber: int, firstId: nat): (cs: seq<Chunk>)
    ensures |cs| == |windows|
    decreases |windows|
  {
    if windows == [] then []
    else
      [Chunk(sch.name(firstId), sch.render(windows[0]), pageNumber)] + Tag(windows[1..], sch, pageNumber, firstId + 1)
  }

  /** The k-th chunk of a page is its k-th window, rendered, with id
      chunk_<firstId + k> and the page's number. */
  lemma {:induction false} TagAt<T>(windows: seq<seq<T>>, sch: Scheme<T>, pageNumber: int, firstId: nat, k: nat)
    requires k < |windows|
    ensures Tag(windows, sch, pageNumber, firstId)[k] == Chunk(sch.name(firstId + k), sch.render(windows[k]), pageNumber)
    decreases k
  {
    if k > 0 {
      TagAt(windows[1..], sch, pageNumber, firstId + 1, k - 1);
    }
  }

  /** One page after tokenization: its number and its token windows. */
  datatype Segment<T> = Segment(pageNumber: int, windows: seq<seq<T>>)

  /** Every page, tokenized and cut into windows, in page order. */
  function Segments<T>(pages: seq<Page>, size: nat, encode: string -> seq<T>): (segs: seq<Segment<T>>)
    ensures |segs| == |pages|
    decreases |pages|
  {
    if pages == [] then []
    else [Segment(pages[0].pageNumber, Windows(encode(pages[0].text), size))] + Segments(pages[1..], size, encode)
  }

  /** The i-th segment is the i-th page's windows, under its number. */
  lemma {:induction false} SegmentsAt<T>(pages: seq<Page>, size: nat, encode: string -> seq<T>, i: nat)
    requires i < |pages|
    ensures Segments(pages, size, encode)[i] == Segment(pages[i].pageNumber, Windows(encode(pages[i].text), size))
    decreases i
  {
    if i > 0 {
      SegmentsAt(pages[1..], size, encode, i - 1);
    }
  }

  lemma {:induction false} SegmentsAppend<T>(a: seq<Page>, b: seq<Page>, size: nat, encode: string -> seq<T>)
    ensures Segments(a + b, size, encode) == Segments(a, size, encode) + Segments(b, size, encode)
    decreases |a|
  {
    if a == [] {
      assert a + b == b;
    } else {
      assert (a + b)[0] == a[0];
      assert (a + b)[1..] == a[1..] + b;
      SegmentsAppend(a[1..], b, size, encode);
    }
  }

  /** The chunks of a list of segments, numbered from firstId without a
      reset between pages. */
  function Number<T>(segs: seq<Segment<T>>, sch: Scheme<T>, firstId: nat): (cs: seq<Chunk>)
    decreases |segs|
  {
    if segs == [] then []
    else Tag(segs[0].windows, sch, segs[0].pageNumber, firstId) + Number(segs[1..], sch, firstId + |segs[0].windows|)
  }

  /** The chunks of a list of pages, in page order, numbered from firstId. */
  function ChunksFrom<T>(pages: seq<Page>, size: nat, sch: Scheme<T>, firstId: nat): seq<Chunk> {
    Number(Segments(pages, size, sch.encode), sch, firstId)
  }

  /** What tokenize_text(page_texts, max_tokens) returns. The ValueError of a
      zero step is raised only when there is a page to loop over; a negative
      step gives an empty range, hence no chunks. */
  function Tokenize<T>(pages: seq<Page>, maxTokens: int, sch: Scheme<T>): Outcome {
    if maxTokens > 0 then Chunks(ChunksFrom(pages, maxTokens, sch, 0))
    else if maxTokens == 0 && pages != [] then ZeroStep
    else Chunks([])
  }

  /** One more window: the chunks still to come from the window at `start`
      on are that window's chunk followed by those of the windows after it. */
  lemma WindowStep<T>(done: seq<Chunk>, tokens: seq<T>, size: nat, start: nat, sch: Scheme<T>, pageNumber: int, id: nat)
    requires size > 0 && start < |tokens|
    ensures done + Tag(WindowsFrom(tokens, size, start), sch, pageNumber, id)
      == (done + [Chunk(sch.name(id), sch.render(tokens[start..Min(start + size, |tokens|)]), pageNumber)])
         + Tag(WindowsFrom(tokens, size, start + size), sch, pageNumber, id + 1)
    ensures |WindowsFrom(tokens, size, start)| == |WindowsFrom(tokens, size, start + size)| + 1
  {
    var w := tokens[start..Min(start + size, |tokens|)];
    var rest := WindowsFrom(tokens, size, start + size);
    assert WindowsFrom(tokens, size, start) == [w] + rest;
    assert ([w] + rest)[1..] == rest;
  }

  /** One more page: the chunks still to come from segment p on are the
      chunks of segment p followed by those of the segments after it. */
  lemma PageStep<T>(done: seq<Chunk>, segs: seq<Segment<T>>, p: nat, sch: Scheme<T>, id: nat)
    requires p < |segs|
    ensures done + Number(segs[p..], sch, id)
      == (done + Tag(segs[p].windows, sch, segs[p].pageNumber, id))
         + Number(segs[p + 1..], sch, id + |segs[p].windows|)
  {
    assert segs[p..][0] == segs[p];
    assert segs[p..][1..] == segs[p + 1..];
  }

  /** The inner loop of tokenize_text over one page: appends one chunk per
      window of the page's tokens, counting the id up from chunkId. */
  method AppendPageChunks<T>(chunks: seq<Chunk>, tokens: seq<T>, maxTokens: int, sch: Scheme<T>, pageNumber: int, chunkId: nat)
    returns (chunks': seq<Chunk>, chunkId': nat)
    requires maxTokens > 0
    ensures chunks' == chunks + Tag(Windows(tokens, maxTokens), sch, pageNumber, chunkId)
    ensures chunkId' == chunkId + |Windows(tokens, maxTokens)|
  {
    chunks', chunkId' := chunks, chunkId;
    var i: nat := 0;
    while i < |tokens|
      invariant chunkId' + |WindowsFrom(tokens, maxTokens, i)| == chunkId + |Windows(tokens, maxTokens)|
      invariant chunks + Tag(Windows(tokens, maxTokens), sch, pageNumber, chunkId)
        == chunks' + Tag(WindowsFrom(tokens, maxTokens, i), sch, pageNumber, chunkId')
      decreases |tokens| - i
    {
      WindowStep(chunks', tokens, maxTokens, i, sch, pageNumber, chunkId');
      var chunkText := sch.render(tokens[i..Min(i + maxTokens, |tokens|)]);
      chunks' := chunks' + [Chunk(sch.name(chunkId'), chunkText, pageNumber)];
      chunkId' := chunkId' + 1;
      i := i + maxTokens;
    }
    assert WindowsFrom(tokens, maxTokens, i) == [];
    assert chunks' + [] == chunks';
  }

  /** tokenize_text: the loop over pages, appending each page's chunks and
      counting chunk_id up across pages. */
  method TokenizeText<T>(pages: seq<Page>, maxTokens: int, sch: Scheme<T>)
    returns (r: Outcome)
    ensures r == Tokenize(pages, maxTokens, sch)
  {
    var chunks: seq<Chunk> := [];
    var chunkId: nat := 0;
    var p := 0;
    ghost var size: nat := if maxTokens > 0 then maxTokens else 0;
    ghost var segs := Segments(pages, size, sch.encode);
    assert segs[0..] == segs;
    while p < |pages|
      invariant 0 <= p <= |pages|
      invariant maxTokens > 0 ==> Number(segs, sch, 0) == chunks + Number(segs[p..], sch, chunkId)
      invariant maxTokens <= 0 ==> chunks == []
      invariant maxTokens == 0 ==> p == 0
    {
      var page := pages[p];
      var tokens := sch.encode(page.text);
      if maxTokens == 0 {
        return ZeroStep;
      }
      if maxTokens > 0 {
        SegmentsAt(pages, size, sch.encode, p);
        PageStep(chunks, segs, p, sch, chunkId);
        chunks, chunkId := AppendPageChunks(chunks, tokens, maxTokens, sch, page.pageNumber, chunkId);
      }
      p := p + 1;
    }
    assert segs[p..] == [];
    r := Chunks(chunks);
  }

  /** Numbering a list of segments in two parts is numbering each part, the
      second continuing from where the first stopped. */
  lemma {:induction false} NumberAppend<T>(x: seq<Segment<T>>, y: seq<Segment<T>>, sch: Scheme<T>, firstId: nat)
    ensures Number(x + y, sch, firstId)
      == Number(x, sch, firstId) + Number(y, sch, firstId + |Number(x, sch, firstId)|)
    decreases |x|
  {
    if x == [] {
      assert x + y == y;
    } else {
      assert (x + y)[0] == x[0];
      assert (x + y)[1..] == x[1..] + y;
      NumberAppend(x[1..], y, sch, firstId + |x[0].windows|);
    }
  }

  /** Chunking a document in two parts is chunking each part, the ids of the
      second part continuing from the first. */
  lemma ChunksFromAppend<T>(a: seq<Page>, b: seq<Page>, size: nat, sch: Scheme<T>, firstId: nat)
    ensures ChunksFrom(a + b, size, sch, firstId)
      == ChunksFrom(a, size, sch, firstId)
         + ChunksFrom(b, size, sch, firstId + |ChunksFrom(a, size, sch, firstId)|)
  {
    SegmentsAppend(a, b, size, sch.encode);
    NumberAppend(Segments(a, size, sch.encode), Segments(b, size, sch.encode), sch, firstId);
  }

  /** Chunk ids run name(firstId), name(firstId+1), ... in output order. */
  predicate NumberedFrom(cs: seq<Chunk>, name: nat -> string, firstId: nat) {
    forall k :: 0 <= k < |cs| ==> cs[k].chunkId == name(firstId + k)
  }

  lemma {:induction false} NumberSequential<T>(segs: seq<Segment<T>>, sch: Scheme<T>, firstId: nat)
    ensures NumberedFrom(Number(segs, sch, firstId), sch.name, firstId)
    decreases |segs|
  {
    if segs != [] {
      var first := Tag(segs[0].windows, sch, segs[0].pageNumber, firstId);
      var rest := Number(segs[1..], sch, firstId + |first|);
      var cs := Number(segs, sch, firstId);
      NumberSequential(segs[1..], sch, firstId + |first|);
      forall k | 0 <= k < |cs|
        ensures cs[k].chunkId == sch.name(firstId + k)
      {
        if k < |first| {
          TagAt(segs[0].windows, sch, segs[0].pageNumber, firstId, k);
          assert cs[k] == first[k];
        } else {
          assert cs[k] == rest[k - |first|];
        }
      }
    }
  }

  /** Chunk ids count up across the whole document, with no reset between
      pages. */
  lemma ChunkIdsSequential<T>(pages: seq<Page>, size: nat, sch: Scheme<T>, firstId: nat)
    ensures NumberedFrom(ChunksFrom(pages, size, sch, firstId), sch.name, firstId)
  {
    NumberSequential(Segments(pages, size, sch.encode), sch, firstId);
  }

  /** No two chunks of a document share an id. */
  predicate DistinctIds(cs: seq<Chunk>) {
    forall i, j :: 0 <= i < j < |cs| ==> cs[i].chunkId != cs[j].chunkId
  }

  /** Different counters are given different names. */
  ghost predicate Injective(name: nat -> string) {
    forall a: nat, b: nat :: name(a) == name(b) ==> a == b
  }

  lemma ChunkIdIsInjective()
    ensures Injective(ChunkId)
  {
    forall a: nat, b: nat | ChunkId(a) == ChunkId(b)
      ensures a == b
    {
      ChunkIdInjective(a, b);
    }
  }

  /** With an injective naming, no two chunks of a document share an id. */
  lemma NamedChunksDistinct<T>(pages: seq<Page>, size: nat, sch: Scheme<T>)
    requires Injective(sch.name)
    ensures DistinctIds(ChunksFrom(pages, size, sch, 0))
  {
    var cs := ChunksFrom(pages, size, sch, 0);
    ChunkIdsSequential(pages, size, sch, 0);
    forall i, j | 0 <= i < j < |cs|
      ensures cs[i].chunkId != cs[j].chunkId
    {
      assert cs[i].chunkId == sch.name(i) && cs[j].chunkId == sch.name(j);
    }
  }

  /** With ids chunk_0, chunk_1, ..., no two chunks of a document share an id. */
  lemma ChunkIdsDistinct<T>(pages: seq<Page>, size: nat, encode: string -> seq<T>, render: seq<T> -> string)
    ensures DistinctIds(ChunksFrom(pages, size, Scheme(encode, render, ChunkId), 0))
  {
    ChunkIdIsInjective();
    NamedChunksDistinct(pages, size, Scheme(encode, render, ChunkId));
  }

  /** The chunk c is the rendering of one of the segment's windows and
      carries the segment's page number. */
  ghost predicate FromSegment<T>(c: Chunk, seg: Segment<T>, sch: Scheme<T>) {
    c.pageNumber == seg.pageNumber && exists m :: 0 <= m < |seg.windows| && c.text == sch.render(seg.windows[m])
  }

  lemma {:induction false} NumberOrigin<T>(segs: seq<Segment<T>>, sch: Scheme<T>, firstId: nat, k: nat)
    requires k < |Number(segs, sch, firstId)|
    ensures exists j :: 0 <= j < |segs| && FromSegment(Number(segs, sch, firstId)[k], segs[j], sch)
    decreases |segs|
  {
    var first := Tag(segs[0].windows, sch, segs[0].pageNumber, firstId);
    var rest := Number(segs[1..], sch, firstId + |first|);
    var cs := Number(segs, sch, firstId);
    if k < |first| {
      TagAt(segs[0].windows, sch, segs[0].pageNumber, firstId, k);
      assert cs[k] == first[k];
      assert FromSegment(cs[k], segs[0], sch);
    } else {
      assert cs[k] == rest[k - |first|];
      NumberOrigin(segs[1..], sch, firstId + |first|, k - |first|);
      var j :| 0 <= j < |segs[1..]| && FromSegment(rest[k - |first|], segs[1..][j], sch);
      assert FromSegment(cs[k], segs[j + 1], sch);
    }
  }

  /** The chunk c is the rendering of one of the windows of the page's
      tokens, and carries the page's number. */
  ghost predicate FromPage<T>(c: Chunk, page: Page, size: nat, sch: Scheme<T>) {
    var ws := Windows(sch.encode(page.text), size);
    c.pageNumber == page.pageNumber && exists m :: 0 <= m < |ws| && c.text == sch.render(ws[m])
  }

  /** Every chunk comes from one window of one page, with that page's
      number: no chunk spans two pages. */
  lemma ChunkOrigin<T>(pages: seq<Page>, size: nat, sch: Scheme<T>, firstId: nat, k: nat)
    requires k < |ChunksFrom(pages, size, sch, firstId)|
    ensures exists j :: 0 <= j < |pages| && FromPage(ChunksFrom(pages, size, sch, firstId)[k], pages[j], size, sch)
  {
    var segs := Segments(pages, size, sch.encode);
    NumberOrigin(segs, sch, firstId, k);
    var j :| 0 <= j < |segs| && FromSegment(Number(segs, sch, firstId)[k], segs[j], sch);
    SegmentsAt(pages, size, sch.encode, j);
    assert FromPage(ChunksFrom(pages, size, sch, firstId)[k], pages[j], size, sch);
  }

  predicate PageOrdered(cs: seq<Chunk>) {
    forall i, j :: 0 <= i <= j < |cs| ==> cs[i].pageNumber <= cs[j].pageNumber
  }

  predicate AtOrAfter(cs: seq<Chunk>, pageNumber: int) {
    forall k :: 0 <= k < |cs| ==> pageNumber <= cs[k].pageNumber
  }

  predicate Increasing<T>(segs: seq<Segment<T>>) {
    forall i, j :: 0 <= i < j < |segs| ==> segs[i].pageNumber < segs[j].pageNumber
  }

  lemma {:induction false} NumberInPageOrder<T>(segs: seq<Segment<T>>, sch: Scheme<T>, firstId: nat)
    requires Increasing(segs)
    ensures PageOrdered(Number(segs, sch, firstId))
    ensures segs != [] ==> AtOrAfter(Number(segs, sch, firstId), segs[0].pageNumber)
    decreases |segs|
  {
    if segs != [] {
      var first := Tag(segs[0].windows, sch, segs[0].pageNumber, firstId);
      var rest := Number(segs[1..], sch, firstId + |first|);
      var cs := Number(segs, sch, firstId);
      NumberInPageOrder(segs[1..], sch, firstId + |first|);
      forall k | 0 <= k < |cs|
        ensures segs[0].pageNumber <= cs[k].pageNumber
        ensures k < |first| ==> cs[k].pageNumber == segs[0].pageNumber
      {
        if k < |first| {
          TagAt(segs[0].windows, sch, segs[0].pageNumber, firstId, k);
          assert cs[k] == first[k];
        } else {
          assert cs[k] == rest[k - |first|];
          assert segs[1..][0] == segs[1];
        }
      }
      forall i, j | 0 <= i <= j < |cs|
        ensures cs[i].pageNumber <= cs[j].pageNumber
      {
        if |first| <= i {
          assert cs[i] == rest[i - |first|] && cs[j] == rest[j - |first|];
        }
      }
    }
  }

  /** Output order is page order: when the page numbers increase, the page
      numbers of the chunks never decrease. */
  lemma ChunksInPageOrder<T>(pages: seq<Page>, size: nat, sch: Scheme<T>, firstId: nat)
    requires forall i, j :: 0 <= i < j < |pages| ==> pages[i].pageNumber < pages[j].pageNumber
    ensures PageOrdered(ChunksFrom(pages, size, sch, firstId))
  {
    var segs := Segments(pages, size, sch.encode);
    forall i, j | 0 <= i < j < |segs|
      ensures segs[i].pageNumber < segs[j].pageNumber
    {
      SegmentsAt(pages, size, sch.encode, i);
      SegmentsAt(pages, size, sch.encode, j);
    }
    NumberInPageOrder(segs, sch, firstId);
  }

  /** The number of windows a document's pages give, page by page. */
  function WindowTotal<T>(pages: seq<Page>, size: nat, encode: string -> seq<T>): nat
    requires size > 0
    decreases |pages|
  {
    if pages == [] then 0
    else (|encode(pages[0].text)| + size - 1) / size + WindowTotal(pages[1..], size, encode)
  }

  /** The document yields, in total, the sum over its pages of
      ceil(tokens / size) chunks. */
  lemma {:induction false} ChunkCount<T>(pages: seq<Page>, size: nat, sch: Scheme<T>, firstId: nat)
    requires size > 0
    ensures |ChunksFrom(pages, size, sch, firstId)| == WindowTotal(pages, size, sch.encode)
    decreases |pages|
  {
    if pages != [] {
      var ws := Windows(sch.encode(pages[0].text), size);
      WindowsCount(sch.encode(pages[0].text), size, 0);
      ChunkCount(pages[1..], size, sch, firstId + |ws|);
    }
  }

  /** A page of 600 tokens and a page of 100 tokens, with max_tokens 500,
      give three chunks: the first 500 tokens and the last 100 of page one,
      then the whole of page two, numbered 0, 1, 2. */
  lemma TwoPageScenario<T>(p1: Page, p2: Page, sch: Scheme<T>)
    requires |sch.encode(p1.text)| == 600 && |sch.encode(p2.text)| == 100
    ensures Tokenize([p1, p2], 500, sch) == Chunks([
      Chunk(sch.name(0), sch.render(sch.encode(p1.text)[..500]), p1.pageNumber),
      Chunk(sch.name(1), sch.render(sch.encode(p1.text)[500..]), p1.pageNumber),
      Chunk(sch.name(2), sch.render(sch.encode(p2.text)), p2.pageNumber)])
  {
    var t1, t2 := sch.encode(p1.text), sch.encode(p2.text);
    var w1 := [t1[..500], t1[500..]];
    assert Windows(t1, 500) == w1 by {
      assert WindowsFrom(t1, 500, 1000) == [];
      assert WindowsFrom(t1, 500, 500) == [t1[500..600]] + WindowsFrom(t1, 500, 1000);
      assert WindowsFrom(t1, 500, 0) == [t1[0..500]] + WindowsFrom(t1, 500, 500);
      assert t1[0..500] == t1[..500] && t1[500..600] == t1[500..];
    }
    assert Windows(t2, 500) == [t2] by {
      assert WindowsFrom(t2, 500, 500) == [];
      assert WindowsFrom(t2, 500, 0) == [t2[0..100]] + WindowsFrom(t2, 500, 500);
      assert t2[0..100] == t2;
    }
    var s1, s2 := Segment(p1.pageNumber, w1), Segment(p2.pageNumber, [t2]);
    assert [p1, p2][1..] == [p2];
    assert Segments([p1, p2], 500, sch.encode) == [s1, s2];
    assert [s1, s2][1..] == [s2];
    assert w1[1..] == [t1[500..]];
    assert Tag(w1, sch, p1.pageNumber, 0)
      == [Chunk(sch.name(0), sch.render(t1[..500]), p1.pageNumber), Chunk(sch.name(1), sch.render(t1[500..]), p1.pageNumber)];
    assert Number([s1, s2], sch, 0) == Tag(w1, sch, p1.pageNumber, 0) + Number([s2], sch, 2);
    assert [s2][1..] == [];
    assert Number([s2], sch, 2) == Tag([t2], sch, p2.pageNumber, 2) + Number([], sch, 3);
    assert Tag([t2], sch, p2.pageNumber, 2) == [Chunk(sch.name(2), sch.render(t2), p2.pageNumber)];
    assert ChunksFrom([p1, p2], 500, sch, 0) == Number([s1, s2], sch, 0);
  }
}

/** The chunker: a greedy window over the words of each page that keeps a suffix of the previous window. */
module Chunker {
  import opened Wrappers
  import opened DocumentRecord
  import opened Decimals
  import opened WordLists

  datatype Page = Page(text: string, pageNumber: Option<nat>, sheetName: Option<string>)
  datatype Chunk = Chunk(documentId: string, chunkId: string, text: string, chunkIndex: nat,
                         pageNumber: Option<nat>, sheetName: Option<string>)
  datatype ChunkerError = SizeNotPositive | OverlapNegative | OverlapNotSmaller

  /** The words `start` to `end` of a page. */
  datatype Window = Window(start: nat, end: nat)

  // ----- what a page is split into -----

  /** Where the longest run of words ending at `b` that fits into `limit` starts, if not before `a`. */
  function SuffixStart(words: Words, a: nat, b: nat, limit: nat): (s: nat)
    requires a <= b <= |words|
    ensures a <= s <= b
    decreases b - a
  {
    if Width(words, a, b) <= limit then a else SuffixStart(words, a + 1, b, limit)
  }

  lemma {:induction false} SuffixIsLongest(words: Words, a: nat, b: nat, limit: nat, t: nat)
    requires a <= t <= b <= |words|
    ensures Width(words, t, b) <= limit <==> SuffixStart(words, a, b, limit) <= t
    decreases b - a
  {
    if Width(words, a, b) <= limit {
      WidthOfPart(words, a, t, b, b);
    } else if a < t {
      SuffixIsLongest(words, a + 1, b, limit, t);
    }
  }

  /** The windows closed by the first `i` words, and where the open one starts. */
  datatype Scan = Scan(windows: seq<Window>, start: nat)

  function ScanTo(words: Words, i: nat, size: nat, overlap: nat): (s: Scan)
    requires i <= |words|
    ensures s.start <= i && (i > 0 ==> s.start < i)
    ensures Within(words, s.windows)
  {
    if i == 0 then Scan([], 0)
    else
      var before := ScanTo(words, i - 1, size, overlap);
      if before.start < i - 1 && Width(words, before.start, i) > size then
        Scan(before.windows + [Window(before.start, i - 1)], SuffixStart(words, before.start, i - 1, overlap))
      else before
  }

  predicate Within(words: Words, windows: seq<Window>) {
    forall k :: 0 <= k < |windows| ==> windows[k].start < windows[k].end <= |words|
  }

  /** All windows: those closed on the way and the one left open at the end. */
  function Windows(words: Words, size: nat, overlap: nat): (windows: seq<Window>)
    ensures Within(words, windows)
  {
    if words == [] then []
    else
      var s := ScanTo(words, |words|, size, overlap);
      s.windows + [Window(s.start, |words|)]
  }

  function TextOf(words: Words, w: Window): string
    requires w.start < w.end <= |words|
  {
    Join(words[w.start..w.end])
  }

  predicate AreTexts(words: Words, windows: seq<Window>, texts: seq<string>) {
    && |texts| == |windows| && Within(words, windows)
    && forall i :: 0 <= i < |windows| ==> texts[i] == TextOf(words, windows[i])
  }

  function PageWindows(text: string, size: nat, overlap: nat): seq<Window> {
    Windows(Split(text), size, overlap)
  }

  function PageTexts(text: string, size: nat, overlap: nat): (texts: seq<string>)
    ensures AreTexts(Split(text), PageWindows(text, size, overlap), texts)
  {
    var words, windows := Split(text), PageWindows(text, size, overlap);
    seq(|windows|, i requires 0 <= i < |windows| => TextOf(words, windows[i]))
  }

  // ----- the loops -----

  /** The greedy loop over the words of a page. */
  method PackWords(words: Words, chunkSize: nat, chunkOverlap: nat) returns (chunks: seq<string>)
    requires words != []
    ensures AreTexts(words, Windows(words, chunkSize, chunkOverlap), chunks)
  {
    chunks := [];
    var currentWords: Words := [];
    var currentLen := 0;
    ghost var start: nat, windows: seq<Window> := 0, [];
    for i := 0 to |words|
      invariant ScanTo(words, i, chunkSize, chunkOverlap) == Scan(windows, start) && start <= i
      invariant currentWords == words[start..i]
      invariant currentLen == Width(words, start, i)
      invariant AreTexts(words, windows, chunks)
    {
      var word := words[i];
      var addedLen := |word| + if currentWords != [] then 1 else 0;
      Extended(words, start, i);
      ScanStep(words, i, chunkSize, chunkOverlap);
      if currentWords != [] && currentLen + addedLen > chunkSize {
        Closed(words, windows, chunks, start, i);
        chunks := chunks + [Join(currentWords)];
        windows := windows + [Window(start, i)];
        currentWords := TakeOverlap(currentWords, chunkOverlap);
        Reopened(words, start, i, chunkOverlap);
        start := SuffixStart(words, start, i, chunkOverlap);
        currentLen := if currentWords != [] then |Join(currentWords)| else 0;
        addedLen := |word| + if currentWords != [] then 1 else 0;
      }
      Extended(words, start, i);
      currentWords := currentWords + [word];
      currentLen := currentLen + addedLen;
    }
    if currentWords != [] {
      Closed(words, windows, chunks, start, |words|);
      chunks := chunks + [Join(currentWords)];
    }
  }

  lemma ScanStep(words: Words, i: nat, size: nat, overlap: nat)
    requires i < |words|
    ensures var s, next := ScanTo(words, i, size, overlap), ScanTo(words, i + 1, size, overlap);
            if s.start < i && Width(words, s.start, i + 1) > size then
              next == Scan(s.windows + [Window(s.start, i)], SuffixStart(words, s.start, i, overlap))
            else next == s
  {
  }

  lemma Closed(words: Words, windows: seq<Window>, chunks: seq<string>, start: nat, end: nat)
    requires AreTexts(words, windows, chunks) && start < end <= |words|
    ensures AreTexts(words, windows + [Window(start, end)], chunks + [Join(words[start..end])])
  {
  }

  /** The longest suffix of `words` whose joined length fits the overlap. */
  method TakeOverlap(words: Words, chunkOverlap: nat) returns (overlap: Words)
    ensures overlap == words[SuffixStart(words, 0, |words|, chunkOverlap)..]
  {
    overlap := [];
    var total := 0;
    var i := |words|;
    while i > 0
      invariant 0 <= i <= |words| && overlap == words[i..] && total == Width(words, i, |words|)
      invariant SuffixStart(words, 0, |words|, chunkOverlap) <= i
    {
      var word := words[i - 1];
      var additional := |word| + if overlap != [] then 1 else 0;
      WidthFront(words, i - 1, |words|);
      SuffixIsLongest(words, 0, |words|, chunkOverlap, i - 1);
      if total + additional > chunkOverlap {
        return;
      }
      overlap := [word] + overlap;
      total := total + additional;
      i := i - 1;
    }
  }

  // ----- the chunks of a document -----

  function ChunkId(documentId: string, index: nat): string {
    documentId + "-" + Decimal(index)
  }

  function ChunkOf(documentId: string, page: Page, text: string, index: nat): Chunk {
    Chunk(documentId, ChunkId(documentId, index), text, index, page.pageNumber, page.sheetName)
  }

  /** The texts of all pages in order, each with its page. */
  function AllTexts(pages: seq<Page>, size: nat, overlap: nat): seq<(Page, string)> {
    if pages == [] then []
    else AllTexts(pages[..|pages| - 1], size, overlap) + Labelled(Last(pages), PageTexts(Last(pages).text, size, overlap))
  }

  /** A further page adds, after the texts of the pages before it, the joined words of its own windows, each
      with that page. */
  lemma OneMorePage(pages: seq<Page>, page: Page, size: nat, overlap: nat)
    ensures AllTexts([], size, overlap) == []
    ensures var before, after := AllTexts(pages, size, overlap), AllTexts(pages + [page], size, overlap);
            var words := Split(page.text);
            var windows := Windows(words, size, overlap);
            && |after| == |before| + |windows| && after[..|before|] == before
            && forall i :: 0 <= i < |windows| ==>
                 after[|before| + i] == (page, Join(words[windows[i].start..windows[i].end]))
  {
    assert (pages + [page])[..|pages|] == pages;
    var texts := PageTexts(page.text, size, overlap);
    assert AllTexts(pages + [page], size, overlap) == AllTexts(pages, size, overlap) + Labelled(page, texts);
    assert forall i :: 0 <= i < |texts| ==> Labelled(page, texts)[i] == (page, texts[i]);
  }

  function Labelled(page: Page, texts: seq<string>): (r: seq<(Page, string)>)
    ensures |r| == |texts| && forall i :: 0 <= i < |texts| ==> r[i] == (page, texts[i])
  {
    seq(|texts|, i requires 0 <= i < |texts| => (page, texts[i]))
  }

  /** The chunks are those texts, numbered from zero across the pages. */
  predicate AreChunks(chunks: seq<Chunk>, documentId: string, texts: seq<(Page, string)>) {
    |chunks| == |texts|
    && forall i :: 0 <= i < |chunks| ==> chunks[i] == ChunkOf(documentId, texts[i].0, texts[i].1, i)
  }

  class DocumentChunker {
    const chunkSize: nat
    const chunkOverlap: nat

    constructor (size: nat, overlap: nat)
      ensures chunkSize == size && chunkOverlap == overlap
    {
      chunkSize, chunkOverlap := size, overlap;
    }

    /** The constructor's validation: a chunker exists exactly for 0 <= overlap < size. */
    static method Create(size: int, overlap: int) returns (r: Result<DocumentChunker, ChunkerError>)
      ensures r.Ok? <==> 0 <= overlap < size
      ensures r.Ok? ==> r.value.chunkSize == size && r.value.chunkOverlap == overlap
      ensures r == Err(SizeNotPositive) <==> size <= 0
      ensures r == Err(OverlapNegative) <==> size > 0 && overlap < 0
    {
      if size <= 0 {
        return Err(SizeNotPositive);
      }
      if overlap < 0 {
        return Err(OverlapNegative);
      }
      if overlap >= size {
        return Err(OverlapNotSmaller);
      }
      var chunker := new DocumentChunker(size, overlap);
      return Ok(chunker);
    }

    /** Every page's texts become chunks, in order, numbered across the pages. */
    method Chunk(documentId: string, pages: seq<Page>) returns (chunks: seq<Chunk>)
      ensures AreChunks(chunks, documentId, AllTexts(pages, chunkSize, chunkOverlap))
      ensures var texts := AllTexts(pages, chunkSize, chunkOverlap);
              && |chunks| == |texts|
              && forall i :: 0 <= i < |chunks| ==>
                   var page := texts[i].0;
                   && chunks[i].documentId == documentId && chunks[i].chunkId == documentId + "-" + Decimal(i)
                   && chunks[i].chunkIndex == i && chunks[i].text == texts[i].1
                   && chunks[i].pageNumber == page.pageNumber && chunks[i].sheetName == page.sheetName
    {
      chunks := [];
      var chunkIndex := 0;
      for p := 0 to |pages|
        invariant chunkIndex == |chunks|
        invariant AreChunks(chunks, documentId, AllTexts(pages[..p], chunkSize, chunkOverlap))
      {
        var texts := SplitText(pages[p].text);
        assert pages[..p + 1][..p] == pages[..p];
        ghost var before := AllTexts(pages[..p], chunkSize, chunkOverlap);
        assert AllTexts(pages[..p + 1], chunkSize, chunkOverlap) == before + Labelled(pages[p], texts);
        for t := 0 to |texts|
          invariant chunkIndex == |chunks|
          invariant AreChunks(chunks, documentId, before + Labelled(pages[p], texts[..t]))
        {
          AddChunk(chunks, documentId, before, pages[p], texts, t);
          chunks := chunks + [ChunkOf(documentId, pages[p], texts[t], chunkIndex)];
          chunkIndex := chunkIndex + 1;
        }
        assert texts[..|texts|] == texts;
      }
      assert pages[..|pages|] == pages;
    }

    /** One page. The running length is the joined length of the words taken so far. */
    method SplitText(text: string) returns (chunks: seq<string>)
      ensures chunks == PageTexts(text, chunkSize, chunkOverlap)
    {
      var words := Split(text);
      if words == [] {
        return [];
      }
      chunks := PackWords(words, chunkSize, chunkOverlap);
      NothingIsBlank(words, PageWindows(text, chunkSize, chunkOverlap), chunks);
      chunks := KeepNonBlank(chunks);
    }
  }

  lemma {:induction false} SuffixOfSlice(words: Words, a: nat, b: nat, i: nat, limit: nat)
    requires a <= b <= |words| && i <= b - a
    ensures a + SuffixStart(words[a..b], i, b - a, limit) == SuffixStart(words, a + i, b, limit)
    decreases b - a - i
  {
    WidthOfSlice(words, a, b, i, b - a);
    if Width(words, a + i, b) > limit {
      SuffixOfSlice(words, a, b, i + 1, limit);
    }
  }

  lemma Reopened(words: Words, start: nat, i: nat, overlap: nat)
    requires start < i <= |words|
    ensures var next := SuffixStart(words, start, i, overlap);
            && words[start..i][SuffixStart(words[start..i], 0, i - start, overlap)..] == words[next..i]
            && |Join(words[next..i])| == Width(words, next, i)
  {
    SuffixOfSlice(words, start, i, 0, overlap);
    WidthIsLength(words, SuffixStart(words, start, i, overlap), i);
  }

  lemma Extended(words: Words, start: nat, i: nat)
    requires start <= i < |words|
    ensures words[start..i + 1] == words[start..i] + [words[i]]
    ensures Width(words, start, i + 1) == Width(words, start, i) + |words[i]| + if words[start..i] == [] then 0 else 1
  {
  }

  lemma AddChunk(chunks: seq<Chunk>, documentId: string, before: seq<(Page, string)>, page: Page, texts: seq<string>, t: nat)
    requires t < |texts| && AreChunks(chunks, documentId, before + Labelled(page, texts[..t]))
    ensures AreChunks(chunks + [ChunkOf(documentId, page, texts[t], |chunks|)], documentId,
                      before + Labelled(page, texts[..t + 1]))
  {
    assert Labelled(page, texts[..t + 1]) == Labelled(page, texts[..t]) + [(page, texts[t])];
  }

  /** The final filter over the chunk texts. */
  function KeepNonBlank(texts: seq<string>): (kept: seq<string>)
    ensures (forall i :: 0 <= i < |texts| ==> !Blank(texts[i])) ==> kept == texts
  {
    if texts == [] then []
    else if Blank(Last(texts)) then KeepNonBlank(texts[..|texts| - 1])
    else KeepNonBlank(texts[..|texts| - 1]) + [Last(texts)]
  }

  lemma NothingIsBlank(words: Words, windows: seq<Window>, texts: seq<string>)
    requires AreWords(words) && AreTexts(words, windows, texts)
    ensures forall i :: 0 <= i < |texts| ==> !Blank(texts[i])
  {
    forall i | 0 <= i < |texts| ensures !Blank(texts[i]) {
      SplitJoin(words[windows[i].start..windows[i].end]);
    }
  }
}

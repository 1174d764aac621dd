/** What the chunker's windows guarantee: order, coverage, overlap, size, and that these facts determine them. */
module ChunkWindows {
  import opened DocumentRecord
  import opened WordLists
  import opened Chunker

  /** How many words the windows before the `k`-th cover. */
  function Covered(windows: seq<Window>, k: nat): nat
    requires k <= |windows|
  {
    if k == 0 then 0 else windows[k - 1].end
  }

  /** The `k`-th window starts within or right after its predecessor, adds at least one word, and more than
      that one only while it stays within `size`. */
  predicate Placed(words: Words, windows: seq<Window>, size: nat, k: nat)
    requires k < |windows|
  {
    var w, covered := windows[k], Covered(windows, k);
    w.start <= covered < w.end <= |words| && (w.end == covered + 1 || Width(words, w.start, w.end) <= size)
  }

  /** The `k`-th window could not have taken the next word, and its successor keeps its longest suffix
      within `overlap`. */
  predicate Chained(words: Words, windows: seq<Window>, size: nat, overlap: nat, k: nat)
    requires k + 1 < |windows|
  {
    var w, next := windows[k], windows[k + 1].start;
    && w.start <= next <= w.end < |words|
    && Width(words, w.start, w.end + 1) > size
    && Width(words, next, w.end) <= overlap
    && (next > w.start ==> Width(words, next - 1, w.end) > overlap)
  }

  /** `windows` split the first `n` words. */
  ghost predicate Greedy(words: Words, n: nat, windows: seq<Window>, size: nat, overlap: nat) {
    && n <= |words| && windows != []
    && windows[0].start == 0 && Last(windows).end == n
    && (forall k :: 0 <= k < |windows| ==> Placed(words, windows, size, k))
    && (forall k :: 0 <= k < |windows| - 1 ==> Chained(words, windows, size, overlap, k))
  }

  lemma {:induction false} ScanIsGreedy(words: Words, i: nat, size: nat, overlap: nat)
    requires 0 < i <= |words|
    ensures var s := ScanTo(words, i, size, overlap); Greedy(words, i, s.windows + [Window(s.start, i)], size, overlap)
  {
    var s := ScanTo(words, i, size, overlap);
    if i > 1 {
      ScanIsGreedy(words, i - 1, size, overlap);
      var before := ScanTo(words, i - 1, size, overlap);
      var open := before.windows + [Window(before.start, i - 1)];
      if Width(words, before.start, i) > size {
        SlideKeepsGreedy(words, i - 1, open, s.start, size, overlap);
        assert s.windows == open;
      } else {
        GrowKeepsGreedy(words, i - 1, before.windows, before.start, size, overlap);
      }
    }
  }

  lemma GrowKeepsGreedy(words: Words, i: nat, windows: seq<Window>, start: nat, size: nat, overlap: nat)
    requires i < |words| && Greedy(words, i, windows + [Window(start, i)], size, overlap)
    requires start < i && Width(words, start, i + 1) <= size
    ensures Greedy(words, i + 1, windows + [Window(start, i + 1)], size, overlap)
  {
    var shorter, longer := windows + [Window(start, i)], windows + [Window(start, i + 1)];
    forall k | 0 <= k < |longer| ensures Placed(words, longer, size, k) {
      assert Placed(words, shorter, size, k);
    }
    forall k | 0 <= k < |longer| - 1 ensures Chained(words, longer, size, overlap, k) {
      assert Chained(words, shorter, size, overlap, k);
    }
  }

  lemma SlideKeepsGreedy(words: Words, i: nat, windows: seq<Window>, next: nat, size: nat, overlap: nat)
    requires i < |words| && Greedy(words, i, windows, size, overlap)
    requires Last(windows).start < i && Width(words, Last(windows).start, i + 1) > size
    requires next == SuffixStart(words, Last(windows).start, i, overlap)
    ensures Greedy(words, i + 1, windows + [Window(next, i + 1)], size, overlap)
  {
    var longer := windows + [Window(next, i + 1)];
    forall k | 0 <= k < |longer| ensures Placed(words, longer, size, k) {
      assert k < |windows| ==> Placed(words, windows, size, k);
    }
    forall k | 0 <= k < |longer| - 1 ensures Chained(words, longer, size, overlap, k) {
      if k < |windows| - 1 {
        assert Chained(words, windows, size, overlap, k);
      } else {
        SuffixIsLongest(words, Last(windows).start, i, overlap, next);
        if next > Last(windows).start {
          SuffixIsLongest(words, Last(windows).start, i, overlap, next - 1);
        }
      }
    }
  }

  // ----- the windows are the only ones that fit this description -----

  lemma {:induction false} GreedyAgree(words: Words, a: seq<Window>, b: seq<Window>, size: nat, overlap: nat, k: nat)
    requires Greedy(words, |words|, a, size, overlap) && Greedy(words, |words|, b, size, overlap)
    requires k < |a| && k < |b|
    ensures a[..k + 1] == b[..k + 1]
  {
    assert Placed(words, a, size, k) && Placed(words, b, size, k);
    if k > 0 {
      GreedyAgree(words, a, b, size, overlap, k - 1);
      assert a[k - 1] == a[..k][k - 1] == b[..k][k - 1] == b[k - 1];
      assert Chained(words, a, size, overlap, k - 1) && Chained(words, b, size, overlap, k - 1);
      SameSuffix(words, a[k].start, b[k].start, a[k - 1], overlap);
    }
    EndsAgree(words, a, b, size, overlap, k);
    EndsAgree(words, b, a, size, overlap, k);
    assert a[..k + 1] == a[..k] + [a[k]] && b[..k + 1] == b[..k] + [b[k]];
  }

  lemma SameSuffix(words: Words, s: nat, t: nat, w: Window, overlap: nat)
    requires w.start <= s <= w.end <= |words| && w.start <= t <= w.end
    requires Width(words, s, w.end) <= overlap && (s > w.start ==> Width(words, s - 1, w.end) > overlap)
    requires Width(words, t, w.end) <= overlap && (t > w.start ==> Width(words, t - 1, w.end) > overlap)
    ensures s == t
  {
    if s < t {
      WidthOfPart(words, s, t - 1, w.end, w.end);
    } else if t < s {
      WidthOfPart(words, t, s - 1, w.end, w.end);
    }
  }

  lemma EndsAgree(words: Words, a: seq<Window>, b: seq<Window>, size: nat, overlap: nat, k: nat)
    requires Greedy(words, |words|, a, size, overlap) && Greedy(words, |words|, b, size, overlap)
    requires k < |a| && k < |b| && a[k].start == b[k].start && Covered(a, k) == Covered(b, k)
    ensures a[k].end >= b[k].end
  {
    assert Placed(words, a, size, k) && Placed(words, b, size, k);
    if a[k].end < b[k].end && k + 1 < |a| {
      assert Chained(words, a, size, overlap, k);
      WidthOfPart(words, a[k].start, a[k].start, a[k].end + 1, b[k].end);
    }
  }

  lemma GreedyIsLongest(words: Words, a: seq<Window>, b: seq<Window>, size: nat, overlap: nat)
    requires Greedy(words, |words|, a, size, overlap) && Greedy(words, |words|, b, size, overlap)
    ensures |a| >= |b|
  {
    if |a| < |b| {
      assert Chained(words, b, size, overlap, |a| - 1);
      assert b[..|a|][|a| - 1].end < |words|;
      GreedyAgree(words, a, b, size, overlap, |a| - 1);
    }
  }

  /** For a page with at least one word, the chunker's windows are greedy, and nothing else is. */
  lemma GreedyIsExact(words: Words, windows: seq<Window>, size: nat, overlap: nat)
    requires words != []
    ensures Greedy(words, |words|, windows, size, overlap) <==> windows == Windows(words, size, overlap)
  {
    var mine := Windows(words, size, overlap);
    ScanIsGreedy(words, |words|, size, overlap);
    if Greedy(words, |words|, windows, size, overlap) {
      GreedyIsLongest(words, mine, windows, size, overlap);
      GreedyIsLongest(words, windows, mine, size, overlap);
      GreedyAgree(words, windows, mine, size, overlap, |mine| - 1);
      assert windows == windows[..|mine|] && mine == mine[..|mine|];
    }
  }

  /** Starts never decrease, ends strictly increase, and the last window ends at the last word. */
  lemma WindowsAdvance(words: Words, size: nat, overlap: nat, k: nat)
    requires words != [] && k < |Windows(words, size, overlap)|
    ensures var windows := Windows(words, size, overlap);
            && windows[0].start == 0 && Last(windows).end == |words|
            && (k + 1 < |windows| ==>
                  windows[k].start <= windows[k + 1].start <= windows[k].end < windows[k + 1].end)
  {
    var windows := Windows(words, size, overlap);
    GreedyIsExact(words, windows, size, overlap);
    if k + 1 < |windows| {
      assert Chained(words, windows, size, overlap, k) && Placed(words, windows, size, k + 1);
    }
  }

  // ----- nothing is lost -----

  /** How many words the `k`-th window repeats from its predecessor. */
  function Repeats(windows: seq<Window>, k: nat): nat
    requires k < |windows|
  {
    if windows[k].start <= Covered(windows, k) then Covered(windows, k) - windows[k].start else 0
  }

  function Drop(words: Words, n: nat): Words {
    if n <= |words| then words[n..] else []
  }

  /** The words of the first `k` chunk texts, split again, without those each repeats. */
  function ReadBack(texts: seq<string>, windows: seq<Window>, k: nat): Words
    requires |texts| == |windows| && k <= |texts|
  {
    if k == 0 then [] else ReadBack(texts, windows, k - 1) + Drop(Split(texts[k - 1]), Repeats(windows, k - 1))
  }

  /** The `k`-th text, split again, is the `k`-th window, which starts among the words covered before it. */
  ghost predicate Piece(words: Words, windows: seq<Window>, texts: seq<string>, k: nat)
    requires k < |windows| == |texts|
  {
    && windows[k].start <= Covered(windows, k) <= windows[k].end <= |words|
    && Split(texts[k]) == words[windows[k].start..windows[k].end]
  }

  lemma {:induction false} ReadBackIsPrefix(words: Words, windows: seq<Window>, texts: seq<string>, k: nat)
    requires k <= |texts| == |windows|
    requires forall j :: 0 <= j < |windows| ==> Piece(words, windows, texts, j)
    ensures Covered(windows, k) <= |words| && ReadBack(texts, windows, k) == words[..Covered(windows, k)]
  {
    if k > 0 {
      ReadBackIsPrefix(words, windows, texts, k - 1);
      assert Piece(words, windows, texts, k - 1);
      Slices(words, windows[k - 1].start, Covered(windows, k - 1), windows[k - 1].end);
    }
  }

  lemma Slices<T>(s: seq<T>, a: nat, b: nat, c: nat)
    requires a <= b <= c <= |s|
    ensures s[a..c][b - a..] == s[b..c] && s[..b] + s[b..c] == s[..c]
  {
  }

  lemma TextIsPiece(words: Words, windows: seq<Window>, texts: seq<string>, size: nat, k: nat)
    requires AreWords(words) && AreTexts(words, windows, texts) && k < |windows| && Placed(words, windows, size, k)
    ensures Piece(words, windows, texts, k)
  {
    SplitJoin(words[windows[k].start..windows[k].end]);
  }

  /** Splitting every chunk again and dropping what it repeats gives exactly the words of the page. */
  lemma ChunksLoseNothing(text: string, size: nat, overlap: nat)
    ensures var texts := PageTexts(text, size, overlap);
            ReadBack(texts, PageWindows(text, size, overlap), |texts|) == Split(text)
  {
    var words, texts, windows := Split(text), PageTexts(text, size, overlap), PageWindows(text, size, overlap);
    if words != [] {
      GreedyIsExact(words, windows, size, overlap);
      forall k | 0 <= k < |windows| ensures Piece(words, windows, texts, k) {
        TextIsPiece(words, windows, texts, size, k);
      }
      ReadBackIsPrefix(words, windows, texts, |texts|);
      assert words[..|words|] == words;
    }
  }

  /** A page yields no chunk exactly when it is blank. */
  lemma BlankPagesOnly(text: string, size: nat, overlap: nat)
    ensures PageTexts(text, size, overlap) == [] <==> Blank(text)
  {
  }

  /** If some page has text, as the extractor guarantees, there is at least one chunk. */
  lemma {:induction false} SomeTextSomeChunk(pages: seq<Page>, size: nat, overlap: nat)
    ensures AllTexts(pages, size, overlap) == [] <==> forall p :: 0 <= p < |pages| ==> Blank(pages[p].text)
  {
    if pages != [] {
      var before := pages[..|pages| - 1];
      SomeTextSomeChunk(before, size, overlap);
      BlankPagesOnly(Last(pages).text, size, overlap);
      assert AllTexts(pages, size, overlap) == [] <==>
        AllTexts(before, size, overlap) == [] && PageTexts(Last(pages).text, size, overlap) == [];
      assert forall p :: 0 <= p < |before| ==> before[p] == pages[p];
    }
  }

  // ----- how large a chunk gets -----

  /** A chunk exceeds `size` exactly when the words it repeats and the next one already do; then that word
      is the only one it adds. */
  lemma OversizeIsExact(words: Words, size: nat, overlap: nat, k: nat)
    requires words != [] && k < |Windows(words, size, overlap)|
    ensures var windows := Windows(words, size, overlap);
            var w, covered := windows[k], Covered(windows, k);
            && w.start <= covered < w.end <= |words|
            && (Width(words, w.start, w.end) > size <==> Width(words, w.start, covered + 1) > size)
            && (Width(words, w.start, w.end) > size ==> w.end == covered + 1)
            && (k + 1 < |windows| ==> w.end < |words| && Width(words, w.start, w.end + 1) > size)
  {
    var windows := Windows(words, size, overlap);
    GreedyIsExact(words, windows, size, overlap);
    assert Placed(words, windows, size, k);
    if k + 1 < |windows| {
      assert Chained(words, windows, size, overlap, k);
    }
    WidthOfPart(words, windows[k].start, windows[k].start, Covered(windows, k) + 1, windows[k].end);
  }

  function Max(a: nat, b: nat): nat {
    if a > b then a else b
  }

  predicate WordsUpTo(words: Words, longest: nat) {
    forall i :: 0 <= i < |words| ==> |words[i]| <= longest
  }

  /** No chunk is longer than `size`, or the overlap, a space and the longest word. */
  lemma ChunkSizeBound(text: string, size: nat, overlap: nat, longest: nat, k: nat)
    requires WordsUpTo(Split(text), longest) && k < |PageTexts(text, size, overlap)|
    ensures |PageTexts(text, size, overlap)[k]| <= Max(size, overlap + 1 + longest)
  {
    var words, windows := Split(text), PageWindows(text, size, overlap);
    var w := windows[k];
    GreedyIsExact(words, windows, size, overlap);
    OversizeIsExact(words, size, overlap, k);
    WidthIsLength(words, w.start, w.end);
    if Width(words, w.start, w.end) > size && k > 0 {
      assert Chained(words, windows, size, overlap, k - 1);
    }
  }

  /** Whenever the overlap leaves the longest word no room, the bound is met: a page of a word as long as the
      overlap and the longest word has a second chunk of exactly that length. */
  lemma BoundIsMet(first: string, second: string, size: nat, overlap: nat)
    requires AreWords([first, second]) && |first| == overlap < size < overlap + 1 + |second|
    ensures var text := Join([first, second]);
            && PageWindows(text, size, overlap) == [Window(0, 1), Window(0, 2)]
            && |PageTexts(text, size, overlap)[1]| == overlap + 1 + |second| == Max(size, overlap + 1 + |second|)
  {
    var words := [first, second];
    SplitJoin(words);
    WidthIsLength(words, 0, 2);
    assert Width(words, 0, 1) == overlap && Width(words, 0, 2) == overlap + 1 + |second|;
    assert ScanTo(words, 1, size, overlap) == Scan([], 0);
    assert SuffixStart(words, 0, 1, overlap) == 0;
  }
}

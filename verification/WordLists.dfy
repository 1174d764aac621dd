/** Splitting text at whitespace, and joining words with single spaces again. */
module WordLists {
  import opened DocumentRecord

  type Words = seq<string>

  /** The characters Python's `str.split()` and `str.strip()` treat as whitespace. */
  predicate IsSpace(c: char) {
    var n := c as int;
    || 9 <= n <= 13 || 28 <= n <= 32 || n == 133 || n == 160 || n == 5760 || 8192 <= n <= 8202
    || n == 8232 || n == 8233 || n == 8239 || n == 8287 || n == 12288
  }

  predicate Blank(text: string) {
    forall i :: 0 <= i < |text| ==> IsSpace(text[i])
  }

  predicate IsWord(word: string) {
    word != "" && forall i :: 0 <= i < |word| ==> !IsSpace(word[i])
  }

  predicate AreWords(words: Words) {
    forall i :: 0 <= i < |words| ==> IsWord(words[i])
  }

  /** The length of the longest prefix without whitespace. */
  function PrefixLength(text: string): (n: nat)
    ensures n <= |text| && forall i :: 0 <= i < n ==> !IsSpace(text[i])
    ensures n < |text| ==> IsSpace(text[n])
  {
    if text == "" || IsSpace(text[0]) then 0 else 1 + PrefixLength(text[1..])
  }

  /** `text.split()`. */
  function Split(text: string): (words: Words)
    ensures AreWords(words)
    ensures words == [] <==> Blank(text)
    decreases |text|
  {
    if text == "" then []
    else if IsSpace(text[0]) then
      assert Blank(text) <==> Blank(text[1..]) by {
        if Blank(text[1..]) {
          assert forall i :: 0 < i < |text| ==> text[i] == text[1..][i - 1];
        }
      }
      Split(text[1..])
    else [text[..PrefixLength(text)]] + Split(text[PrefixLength(text)..])
  }

  /** `" ".join(words)`. */
  function Join(words: Words): string {
    if words == [] then ""
    else if |words| == 1 then words[0]
    else Join(words[..|words| - 1]) + " " + Last(words)
  }

  /** The joined length of the words from `a` to `b`. */
  function Width(words: Words, a: nat, b: nat): nat
    requires a <= b <= |words|
  {
    if a == b then 0 else Width(words, a, b - 1) + |words[b - 1]| + if a + 1 == b then 0 else 1
  }

  lemma {:induction false} WidthIsLength(words: Words, a: nat, b: nat)
    requires a <= b <= |words|
    ensures |Join(words[a..b])| == Width(words, a, b)
  {
    if a < b {
      WidthIsLength(words, a, b - 1);
      assert words[a..b] == words[a..b - 1] + [words[b - 1]];
      assert words[a..b][..b - 1 - a] == words[a..b - 1];
    }
  }

  lemma {:induction false} WidthFront(words: Words, a: nat, b: nat)
    requires a < b <= |words|
    ensures Width(words, a, b) == |words[a]| + (if a + 1 == b then 0 else 1) + Width(words, a + 1, b)
  {
    if a + 1 < b {
      WidthFront(words, a, b - 1);
    }
  }

  lemma {:induction false} WidthOfPart(words: Words, a: nat, b: nat, c: nat, d: nat)
    requires a <= b <= c <= d <= |words|
    ensures Width(words, b, c) <= Width(words, a, d)
    decreases d - a
  {
    if a < b {
      WidthFront(words, a, d);
      WidthOfPart(words, a + 1, b, c, d);
    } else if c < d {
      WidthOfPart(words, a, b, c, d - 1);
    }
  }

  lemma {:induction false} WidthOfSlice(words: Words, a: nat, b: nat, i: nat, j: nat)
    requires a <= b <= |words| && i <= j <= b - a
    ensures Width(words[a..b], i, j) == Width(words, a + i, a + j)
    decreases j
  {
    if i < j {
      WidthOfSlice(words, a, b, i, j - 1);
    }
  }

  lemma {:induction false} JoinFront(word: string, words: Words)
    ensures Join([word] + words) == if words == [] then word else word + " " + Join(words)
  {
    if |words| > 1 {
      var front := words[..|words| - 1];
      JoinFront(word, front);
      assert ([word] + words)[..|words|] == [word] + front;
      assert Join([word] + words) == Join([word] + front) + " " + Last(words);
    } else if |words| == 1 {
      assert ([word] + words)[..1] == [word];
    } else {
      assert [word] + words == [word];
    }
  }

  // ----- joining loses nothing -----

  lemma SplitFirst(word: string, rest: string)
    requires IsWord(word) && (rest == "" || IsSpace(rest[0]))
    ensures Split(word + rest) == [word] + Split(rest)
  {
    var text := word + rest;
    var n := PrefixLength(text);
    assert forall i :: 0 <= i < |word| ==> text[i] == word[i];
    assert rest != "" ==> text[|word|] == rest[0];
    assert n == |word|;
    assert text[..n] == word && text[n..] == rest;
  }

  /** Splitting a joined word list gives exactly that list back. */
  lemma {:induction false} SplitJoin(words: Words)
    requires AreWords(words)
    ensures Split(Join(words)) == words
  {
    if words != [] {
      var rest := words[1..];
      assert words == [words[0]] + rest;
      JoinFront(words[0], rest);
      SplitJoin(rest);
      if rest == [] {
        SplitFirst(words[0], "");
        assert words[0] + "" == words[0];
      } else {
        var tail := " " + Join(rest);
        assert words[0] + " " + Join(rest) == words[0] + tail;
        SplitFirst(words[0], tail);
        assert tail[1..] == Join(rest);
        assert Split(tail) == Split(Join(rest));
      }
    }
  }

  // ----- splitting at any whitespace -----

  /** The words with a gap before each and one after the last. */
  function Spread(words: Words, gaps: seq<string>): string
    requires |gaps| == |words| + 1
  {
    if words == [] then gaps[0] else gaps[0] + (words[0] + Spread(words[1..], gaps[1..]))
  }

  /** Gaps are whitespace, and not empty between two words. */
  predicate Separating(gaps: seq<string>) {
    && (forall i :: 0 <= i < |gaps| ==> Blank(gaps[i]))
    && (forall i :: 0 < i < |gaps| - 1 ==> gaps[i] != "")
  }

  lemma {:induction false} SplitSkipsGap(gap: string, rest: string)
    requires Blank(gap)
    ensures Split(gap + rest) == Split(rest)
  {
    if gap == "" {
      assert gap + rest == rest;
    } else {
      SplitSkipsGap(gap[1..], rest);
      assert (gap + rest)[1..] == gap[1..] + rest;
    }
  }

  lemma {:induction false} SpreadSplits(words: Words, gaps: seq<string>)
    requires AreWords(words) && |gaps| == |words| + 1 && Separating(gaps)
    ensures Split(Spread(words, gaps)) == words
  {
    if words == [] {
      SplitSkipsGap(gaps[0], "");
      assert gaps[0] + "" == gaps[0];
    } else {
      var rest := Spread(words[1..], gaps[1..]);
      SpreadSplits(words[1..], gaps[1..]);
      if |words| == 1 {
        assert rest == gaps[1];
      } else {
        assert rest[0] == gaps[1][0];
      }
      SplitFirst(words[0], rest);
      SplitSkipsGap(gaps[0], words[0] + rest);
    }
  }

  lemma SpreadLonger(c: char, words: Words, gaps: seq<string>)
    requires |gaps| == |words| + 1
    ensures Spread(words, [[c] + gaps[0]] + gaps[1..]) == [c] + Spread(words, gaps)
  {
    var longer := [[c] + gaps[0]] + gaps[1..];
    assert longer[1..] == gaps[1..];
    if words != [] {
      var rest := words[0] + Spread(words[1..], gaps[1..]);
      assert ([c] + gaps[0]) + rest == [c] + (gaps[0] + rest);
    }
  }

  lemma SpreadMore(word: string, words: Words, gaps: seq<string>)
    requires |gaps| == |words| + 1
    ensures Spread([word] + words, [""] + gaps) == word + Spread(words, gaps)
  {
    assert ([word] + words)[1..] == words && ([""] + gaps)[1..] == gaps;
    var rest := word + Spread(words, gaps);
    assert "" + rest == rest;
  }

  lemma SeparatingLonger(c: char, gaps: seq<string>)
    requires IsSpace(c) && gaps != [] && Separating(gaps)
    ensures Separating([[c] + gaps[0]] + gaps[1..])
  {
    var longer := [[c] + gaps[0]] + gaps[1..];
    assert forall i :: 0 < i < |gaps| ==> longer[i] == gaps[i];
    assert Blank([c] + gaps[0]);
  }

  lemma SeparatingMore(gaps: seq<string>)
    requires gaps != [] && Separating(gaps) && (|gaps| > 1 ==> gaps[0] != "")
    ensures Separating([""] + gaps)
  {
    assert forall i :: 0 < i <= |gaps| ==> ([""] + gaps)[i] == gaps[i - 1];
  }

  lemma {:induction false} GapsOf(text: string) returns (gaps: seq<string>)
    ensures |gaps| == |Split(text)| + 1 && Separating(gaps) && Spread(Split(text), gaps) == text
    ensures text != "" && !IsSpace(text[0]) ==> gaps[0] == ""
    ensures text != "" && IsSpace(text[0]) ==> gaps[0] != ""
    decreases |text|
  {
    if text == "" {
      gaps := [""];
    } else if IsSpace(text[0]) {
      var more := GapsOf(text[1..]);
      gaps := [[text[0]] + more[0]] + more[1..];
      assert text == [text[0]] + text[1..];
      SpreadLonger(text[0], Split(text), more);
      SeparatingLonger(text[0], more);
    } else {
      var n := PrefixLength(text);
      var more := GapsOf(text[n..]);
      gaps := [""] + more;
      assert text == text[..n] + text[n..];
      SpreadMore(text[..n], Split(text[n..]), more);
      SeparatingMore(more);
    }
  }

  /** A text splits into given words exactly when it is those words with whitespace between them, and possibly
      before and after. */
  lemma SplitIsExact(text: string, words: Words)
    ensures Split(text) == words <==>
              AreWords(words) && exists gaps :: |gaps| == |words| + 1 && Separating(gaps) && Spread(words, gaps) == text
  {
    if Split(text) == words {
      var gaps := GapsOf(text);
    } else if AreWords(words) {
      forall gaps | |gaps| == |words| + 1 && Separating(gaps) ensures Spread(words, gaps) != text {
        SpreadSplits(words, gaps);
      }
    }
  }
}

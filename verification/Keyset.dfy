/** Keyset pagination over rows in a strict order: a page is the first rows after the previous page's last
    one, and one row more than asked for tells whether there is a next page. */
module Keyset {
  import opened Wrappers
  import opened DocumentRecord

  ghost predicate StrictlyOrdered<K>(rows: seq<K>, precedes: (K, K) -> bool) {
    && (forall i, j :: 0 <= i < j < |rows| ==> precedes(rows[i], rows[j]))
    && (forall i, j :: 0 <= i <= j < |rows| ==> !precedes(rows[j], rows[i]))
  }

  /** The rows from position `i` on that come after `cursor`. */
  function After<K>(rows: seq<K>, precedes: (K, K) -> bool, cursor: Option<K>, i: nat): seq<K>
    requires i <= |rows|
    decreases |rows| - i
  {
    if i == |rows| then []
    else
      var rest := After(rows, precedes, cursor, i + 1);
      if cursor.None? || precedes(cursor.value, rows[i]) then [rows[i]] + rest else rest
  }

  function FirstRows<K>(rows: seq<K>, n: nat): seq<K> {
    if |rows| <= n then rows else rows[..n]
  }

  datatype Page<K> = Page(rows: seq<K>, next: Option<K>)

  function PageAfter<K>(rows: seq<K>, precedes: (K, K) -> bool, limit: nat, cursor: Option<K>): (page: Page<K>)
    requires limit >= 1
    ensures page.next.Some? ==> page.rows != [] && page.next.value == Last(page.rows)
  {
    var found := FirstRows(After(rows, precedes, cursor, 0), limit + 1);
    var page := FirstRows(found, limit);
    Page(page, if |found| > limit then Some(Last(page)) else None)
  }

  lemma {:induction false} AfterRow<K>(rows: seq<K>, precedes: (K, K) -> bool, c: nat, i: nat)
    requires StrictlyOrdered(rows, precedes) && c < |rows| && i <= |rows|
    ensures After(rows, precedes, Some(rows[c]), i) == if i <= c then rows[c + 1..] else rows[i..]
    decreases |rows| - i
  {
    if i < |rows| {
      AfterRow(rows, precedes, c, i + 1);
    }
  }

  lemma {:induction false} AfterNothing<K>(rows: seq<K>, precedes: (K, K) -> bool, i: nat)
    requires i <= |rows|
    ensures After(rows, precedes, None, i) == rows[i..]
    decreases |rows| - i
  {
    if i < |rows| {
      AfterNothing(rows, precedes, i + 1);
    }
  }

  /** Whether a row comes after the cursor. */
  predicate Past<K>(precedes: (K, K) -> bool, cursor: Option<K>, row: K) {
    cursor.None? || precedes(cursor.value, row)
  }

  lemma {:induction false} AfterSelects<K>(rows: seq<K>, precedes: (K, K) -> bool, cursor: Option<K>, i: nat)
    requires StrictlyOrdered(rows, precedes) && i <= |rows|
    ensures var rest := After(rows, precedes, cursor, i);
            && StrictlyOrdered(rest, precedes)
            && (forall k :: 0 <= k < |rest| ==> rest[k] in rows[i..] && Past(precedes, cursor, rest[k]))
            && (forall k :: i <= k < |rows| && Past(precedes, cursor, rows[k]) ==> rows[k] in rest)
    decreases |rows| - i
  {
    if i < |rows| {
      AfterSelects(rows, precedes, cursor, i + 1);
      var rest := After(rows, precedes, cursor, i + 1);
      assert rows[i..] == [rows[i]] + rows[i + 1..];
      if Past(precedes, cursor, rows[i]) {
        assert After(rows, precedes, cursor, i) == [rows[i]] + rest;
        assert forall k :: 0 <= k < |rest| ==> rest[k] in rows[i + 1..];
      }
    }
  }

  lemma PageCuts<K>(rows: seq<K>, precedes: (K, K) -> bool, limit: nat, cursor: Option<K>)
    requires limit >= 1
    ensures var rest := After(rows, precedes, cursor, 0);
            PageAfter(rows, precedes, limit, cursor) ==
              if |rest| > limit then Page(rest[..limit], Some(rest[limit - 1])) else Page(rest, None)
  {
    var rest := After(rows, precedes, cursor, 0);
    if |rest| > limit {
      assert rest[..limit + 1][..limit] == rest[..limit];
    }
  }

  /** The rows past the cursor are, in order, those of the page and then those of `more`. */
  ghost predicate Splits<K>(rows: seq<K>, precedes: (K, K) -> bool, cursor: Option<K>, page: seq<K>, more: seq<K>) {
    && StrictlyOrdered(page + more, precedes)
    && (forall k :: 0 <= k < |page + more| ==> (page + more)[k] in rows && Past(precedes, cursor, (page + more)[k]))
    && (forall k :: 0 <= k < |rows| && Past(precedes, cursor, rows[k]) ==> rows[k] in page + more)
  }

  /** A page holds the first rows past the cursor, whether or not the cursor names a row, and has a next page
      exactly when it leaves some of them to it. */
  lemma PageIsExact<K>(rows: seq<K>, precedes: (K, K) -> bool, limit: nat, cursor: Option<K>) returns (more: seq<K>)
    requires StrictlyOrdered(rows, precedes) && limit >= 1
    ensures var page := PageAfter(rows, precedes, limit, cursor);
            && Splits(rows, precedes, cursor, page.rows, more)
            && |page.rows| <= limit && (more != [] ==> |page.rows| == limit)
            && page.next == if more == [] then None else Some(page.rows[limit - 1])
  {
    AfterSelects(rows, precedes, cursor, 0);
    PageCuts(rows, precedes, limit, cursor);
    var rest := After(rows, precedes, cursor, 0);
    more := if |rest| > limit then rest[limit..] else [];
    assert PageAfter(rows, precedes, limit, cursor).rows + more == rest;
    assert rows[0..] == rows;
  }

  // ----- following the cursors -----

  /** The pages one gets by following `next` from the start until there is none. */
  ghost predicate Walk<K>(rows: seq<K>, precedes: (K, K) -> bool, limit: nat, cursors: seq<Option<K>>, pages: seq<seq<K>>) {
    && limit >= 1 && |cursors| == |pages| && pages != [] && cursors[0] == None
    && forall k :: 0 <= k < |pages| ==> Followed(rows, precedes, limit, cursors, pages, k)
  }

  ghost predicate Followed<K>(rows: seq<K>, precedes: (K, K) -> bool, limit: nat, cursors: seq<Option<K>>, pages: seq<seq<K>>, k: nat)
    requires k < |cursors| == |pages| && limit >= 1
  {
    && PageAfter(rows, precedes, limit, cursors[k]) == Page(pages[k], if k + 1 < |cursors| then cursors[k + 1] else None)
    && (k + 1 < |cursors| ==> cursors[k + 1].Some?)
  }

  /** Where page `k` starts. */
  function Start(k: nat, limit: nat): nat {
    if k == 0 then 0 else Start(k - 1, limit) + limit
  }

  lemma {:induction false} StartIsProduct(k: nat, limit: nat)
    ensures Start(k, limit) == k * limit
  {
    if k > 0 {
      StartIsProduct(k - 1, limit);
      assert k * limit == (k - 1) * limit + limit;
    }
  }

  function Upto(n: nat, end: nat): nat {
    if end < n then end else n
  }

  /** The cursor that resumes at position `from`. */
  function ResumeAt<K>(rows: seq<K>, from: nat): Option<K>
    requires from <= |rows|
  {
    if from == 0 then None else Some(rows[from - 1])
  }

  lemma Prefixes<K>(rows: seq<K>, from: nat, limit: nat)
    requires from + limit < |rows|
    ensures rows[from..][..limit + 1][..limit] == rows[from..from + limit]
  {
    var s := rows[from..];
    assert s[..limit + 1][..limit] == s[..limit];
  }

  /** Resuming at a position returns the next `limit` rows, and a cursor exactly when more are left. */
  lemma PageAt<K>(rows: seq<K>, precedes: (K, K) -> bool, limit: nat, from: nat)
    requires StrictlyOrdered(rows, precedes) && limit >= 1 && from <= |rows|
    ensures PageAfter(rows, precedes, limit, ResumeAt(rows, from)) ==
              Page(rows[from..Upto(|rows|, from + limit)], if from + limit < |rows| then ResumeAt(rows, from + limit) else None)
  {
    if from == 0 {
      AfterNothing(rows, precedes, 0);
    } else {
      AfterRow(rows, precedes, from - 1, 0);
    }
    assert After(rows, precedes, ResumeAt(rows, from), 0) == rows[from..];
    if from + limit < |rows| {
      Prefixes(rows, from, limit);
    }
  }

  lemma PageHere<K>(rows: seq<K>, precedes: (K, K) -> bool, limit: nat, cursors: seq<Option<K>>, pages: seq<seq<K>>,
                    k: nat, from: nat)
    requires StrictlyOrdered(rows, precedes) && limit >= 1 && k < |cursors| == |pages|
    requires Followed(rows, precedes, limit, cursors, pages, k) && from <= |rows| && cursors[k] == ResumeAt(rows, from)
    ensures pages[k] == rows[from..Upto(|rows|, from + limit)]
    ensures k + 1 < |pages| <==> from + limit < |rows|
    ensures k + 1 < |pages| ==> cursors[k + 1] == ResumeAt(rows, from + limit)
  {
    PageAt(rows, precedes, limit, from);
  }

  lemma {:induction false} WalkStarts<K>(rows: seq<K>, precedes: (K, K) -> bool, limit: nat, cursors: seq<Option<K>>,
                                         pages: seq<seq<K>>, k: nat)
    requires StrictlyOrdered(rows, precedes) && Walk(rows, precedes, limit, cursors, pages) && k < |pages|
    ensures Start(k, limit) <= |rows| && (k > 0 ==> Start(k, limit) < |rows|)
    ensures cursors[k] == ResumeAt(rows, Start(k, limit))
  {
    if k > 0 {
      WalkStarts(rows, precedes, limit, cursors, pages, k - 1);
      PageHere(rows, precedes, limit, cursors, pages, k - 1, Start(k - 1, limit));
    }
  }

  /** Page `k` of a walk holds the rows from `k * limit` on, and is the last one when they do not reach further. */
  lemma WalkAt<K>(rows: seq<K>, precedes: (K, K) -> bool, limit: nat, cursors: seq<Option<K>>, pages: seq<seq<K>>, k: nat)
    requires StrictlyOrdered(rows, precedes) && Walk(rows, precedes, limit, cursors, pages) && k < |pages|
    ensures var from := Start(k, limit);
            && from <= |rows| && (k > 0 ==> from < |rows|)
            && pages[k] == rows[from..Upto(|rows|, from + limit)]
            && (k + 1 < |pages| <==> from + limit < |rows|)
  {
    WalkStarts(rows, precedes, limit, cursors, pages, k);
    PageHere(rows, precedes, limit, cursors, pages, k, Start(k, limit));
  }

  function Flatten<K>(pages: seq<seq<K>>, n: nat): seq<K>
    requires n <= |pages|
  {
    if n == 0 then [] else Flatten(pages, n - 1) + pages[n - 1]
  }

  lemma {:induction false} FlattenIsPrefix<K>(rows: seq<K>, precedes: (K, K) -> bool, limit: nat, cursors: seq<Option<K>>,
                                              pages: seq<seq<K>>, k: nat)
    requires StrictlyOrdered(rows, precedes) && Walk(rows, precedes, limit, cursors, pages) && k <= |pages|
    ensures Flatten(pages, k) == rows[..Upto(|rows|, Start(k, limit))]
  {
    if k > 0 {
      FlattenIsPrefix(rows, precedes, limit, cursors, pages, k - 1);
      WalkAt(rows, precedes, limit, cursors, pages, k - 1);
      var from := Start(k - 1, limit);
      assert rows[..Upto(|rows|, from + limit)] == rows[..from] + rows[from..Upto(|rows|, from + limit)];
    }
  }

  /** Following the cursors visits every row exactly once and in order, in as many pages as the rows fill, and
      in one empty page when there are none. */
  lemma WalkVisitsAll<K>(rows: seq<K>, precedes: (K, K) -> bool, limit: nat, cursors: seq<Option<K>>, pages: seq<seq<K>>)
    requires StrictlyOrdered(rows, precedes) && Walk(rows, precedes, limit, cursors, pages)
    ensures Flatten(pages, |pages|) == rows
    ensures (|pages| - 1) * limit < |rows| <= |pages| * limit || (rows == [] && |pages| == 1)
  {
    var last := |pages| - 1;
    WalkAt(rows, precedes, limit, cursors, pages, last);
    FlattenIsPrefix(rows, precedes, limit, cursors, pages, |pages|);
    StartIsProduct(last, limit);
    StartIsProduct(|pages|, limit);
    assert rows[..|rows|] == rows;
  }

  /** Such a walk always comes to an end. */
  lemma {:induction false} WalkFrom<K>(rows: seq<K>, precedes: (K, K) -> bool, limit: nat, from: nat)
    returns (cursors: seq<Option<K>>, pages: seq<seq<K>>)
    requires StrictlyOrdered(rows, precedes) && limit >= 1 && from <= |rows|
    ensures |cursors| == |pages| > 0 && cursors[0] == ResumeAt(rows, from)
    ensures forall k :: 0 <= k < |pages| ==> Followed(rows, precedes, limit, cursors, pages, k)
    decreases |rows| - from
  {
    PageAt(rows, precedes, limit, from);
    var page := rows[from..Upto(|rows|, from + limit)];
    if from + limit < |rows| {
      var moreCursors, morePages := WalkFrom(rows, precedes, limit, from + limit);
      cursors, pages := [ResumeAt(rows, from)] + moreCursors, [page] + morePages;
      forall k | 0 <= k < |pages| ensures Followed(rows, precedes, limit, cursors, pages, k) {
        if k > 0 {
          assert Followed(rows, precedes, limit, moreCursors, morePages, k - 1);
        }
      }
    } else {
      cursors, pages := [ResumeAt(rows, from)], [page];
    }
  }
}

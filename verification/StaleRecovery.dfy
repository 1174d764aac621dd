/** Stale ingestion recovery over the whole ingestion_jobs table. The query limits before the loop filters;
    because staleness follows the query's order, the result is the same as filtering first. */
module StaleRecovery {
  import opened DocumentRecord

  /** A row of ingestion_jobs; `updatedAt` is the instant of its last write. */
  datatype Job = Job(id: nat, documentId: nat, status: JobStatus, updatedAt: int, recovered: bool)

  predicate IsProcessing(jobs: seq<Job>, k: nat) {
    k < |jobs| && jobs[k].status == Processing
  }

  /** Not updated after the cutoff: `now - stale_after_seconds` itself still counts as stale here. */
  predicate IsStale(jobs: seq<Job>, cutoff: int, k: nat) {
    IsProcessing(jobs, k) && jobs[k].updatedAt <= cutoff
  }

  /** retry_ingestion's own comparison, which is strict. */
  predicate RetryStale(job: Job, staleAfter: int, now: int) {
    now - job.updatedAt > staleAfter
  }

  /** The two staleness tests agree except for a row last written exactly at the cutoff, which only recovery
      takes for stale. */
  lemma StalenessDiffersAtCutoff(jobs: seq<Job>, staleAfter: int, now: int, k: nat)
    requires IsProcessing(jobs, k)
    ensures IsStale(jobs, now - staleAfter, k) <==> RetryStale(jobs[k], staleAfter, now) || jobs[k].updatedAt == now - staleAfter
    ensures RetryStale(jobs[k], staleAfter, now) ==> jobs[k].updatedAt != now - staleAfter
  {
  }

  /** The query's order: oldest update first, then id. */
  predicate Precedes(jobs: seq<Job>, a: nat, b: nat) {
    && a < |jobs| && b < |jobs|
    && (jobs[a].updatedAt < jobs[b].updatedAt || (jobs[a].updatedAt == jobs[b].updatedAt && jobs[a].id <= jobs[b].id))
  }

  predicate InOrder(jobs: seq<Job>, rows: seq<nat>) {
    forall i, j :: 0 <= i < j < |rows| ==> Precedes(jobs, rows[i], rows[j])
  }

  predicate AllProcessing(jobs: seq<Job>, rows: seq<nat>) {
    forall i :: 0 <= i < |rows| ==> IsProcessing(jobs, rows[i])
  }

  predicate AllStale(jobs: seq<Job>, cutoff: int, rows: seq<nat>) {
    forall i :: 0 <= i < |rows| ==> IsStale(jobs, cutoff, rows[i])
  }

  /** The positions of the stale rows no other transaction has locked. */
  function StaleSet(jobs: seq<Job>, cutoff: int, locked: set<nat>): set<nat> {
    set k | 0 <= k < |jobs| && k !in locked && IsStale(jobs, cutoff, k)
  }

  function ProcessingSet(jobs: seq<Job>, locked: set<nat>): set<nat> {
    set k | 0 <= k < |jobs| && k !in locked && IsProcessing(jobs, k)
  }

  function Elements<T>(s: seq<T>): set<T> {
    set x | x in s
  }

  function Smaller(a: nat, b: nat): nat {
    if a < b then a else b
  }

  /** What ORDER BY updated_at, id LIMIT FOR UPDATE SKIP LOCKED over the PROCESSING rows returns. */
  ghost predicate Selected(jobs: seq<Job>, locked: set<nat>, limit: nat, picked: seq<nat>) {
    && Distinct(picked)
    && |picked| == Smaller(limit, |ProcessingSet(jobs, locked)|)
    && (forall k :: k in picked ==> k in ProcessingSet(jobs, locked))
    && InOrder(jobs, picked)
    && (forall k, other :: k in picked && other in ProcessingSet(jobs, locked) && other !in picked ==>
          Precedes(jobs, k, other))
  }

  /** The oldest stale rows, as many as fit the limit. */
  ghost predicate OldestStale(jobs: seq<Job>, cutoff: int, locked: set<nat>, limit: nat, picked: seq<nat>) {
    && Distinct(picked)
    && |picked| == Smaller(limit, |StaleSet(jobs, cutoff, locked)|)
    && (forall k :: k in picked ==> k in StaleSet(jobs, cutoff, locked))
    && InOrder(jobs, picked)
    && (forall k, other :: k in picked && other in StaleSet(jobs, cutoff, locked) && other !in picked ==>
          Precedes(jobs, k, other))
  }

  /** The stale ones among the first `n` candidates, in order. */
  function KeepStale(jobs: seq<Job>, cutoff: int, picked: seq<nat>, n: nat): (r: seq<nat>)
    requires n <= |picked|
    ensures AllStale(jobs, cutoff, r)
  {
    if n == 0 then []
    else
      var before := KeepStale(jobs, cutoff, picked, n - 1);
      if IsStale(jobs, cutoff, picked[n - 1]) then before + [picked[n - 1]] else before
  }

  lemma {:induction false} KeepStaleMembers(jobs: seq<Job>, cutoff: int, picked: seq<nat>, n: nat, k: nat)
    requires n <= |picked|
    ensures k in KeepStale(jobs, cutoff, picked, n) <==> k in picked[..n] && IsStale(jobs, cutoff, k)
  {
    if n > 0 {
      KeepStaleMembers(jobs, cutoff, picked, n - 1, k);
      assert picked[..n] == picked[..n - 1] + [picked[n - 1]];
    }
  }

  /** The flip of one row and its PENDING replacement. */
  function Recover(jobs: seq<Job>, k: nat, id: nat, now: int): seq<Job>
    requires k < |jobs|
  {
    jobs[k := jobs[k].(status := Failed, updatedAt := now, recovered := true)] + [Job(id, jobs[k].documentId, Pending, now, false)]
  }

  datatype Progress = Progress(jobs: seq<Job>, recovered: seq<nat>)

  /** The table and the recovered rows after the loop's first `i` candidates. */
  function AfterCandidates(jobs: seq<Job>, cutoff: int, candidates: seq<nat>, i: nat, newIds: seq<nat>, now: int): (p: Progress)
    requires AllProcessing(jobs, candidates) && i <= |candidates| <= |newIds|
    ensures |p.jobs| == |jobs| + |p.recovered| && |p.recovered| <= i
  {
    if i == 0 then Progress(jobs, [])
    else
      var p, k := AfterCandidates(jobs, cutoff, candidates, i - 1, newIds, now), candidates[i - 1];
      if p.jobs[k].updatedAt > cutoff then p
      else Progress(Recover(p.jobs, k, newIds[|p.recovered|], now), p.recovered + [k])
  }

  class IngestionTable {
    var jobs: seq<Job>

    constructor (rows: seq<Job>)
      ensures jobs == rows
    {
      jobs := rows;
    }

    /** recover_stale_ingestion_jobs on the rows the query returned and locked. */
    method RecoverStale(candidates: seq<nat>, staleAfter: int, now: int, newIds: seq<nat>) returns (recovered: seq<nat>)
      requires Distinct(candidates) && AllProcessing(jobs, candidates) && |candidates| <= |newIds|
      modifies this
      ensures Progress(jobs, recovered) == AfterCandidates(old(jobs), now - staleAfter, candidates, |candidates|, newIds, now)
      ensures recovered == KeepStale(old(jobs), now - staleAfter, candidates, |candidates|)
    {
      var cutoff := now - staleAfter;
      recovered := [];
      ghost var rows := jobs;
      for i := 0 to |candidates|
        invariant Progress(jobs, recovered) == AfterCandidates(rows, cutoff, candidates, i, newIds, now)
      {
        var k := candidates[i];
        if jobs[k].updatedAt > cutoff {
          continue;
        }
        jobs := Recover(jobs, k, newIds[|recovered|], now);
        recovered := recovered + [k];
      }
      RecoveredAreStale(rows, cutoff, candidates, |candidates|, newIds, now);
    }
  }

  /** What the loop has done to row `k`: testing and flipping one candidate after the other is the same as
      testing them all first. */
  lemma {:induction false} RowAfter(jobs: seq<Job>, cutoff: int, candidates: seq<nat>, i: nat, newIds: seq<nat>, now: int, k: nat)
    requires Distinct(candidates) && AllProcessing(jobs, candidates) && i <= |candidates| <= |newIds| && k < |jobs|
    ensures var p := AfterCandidates(jobs, cutoff, candidates, i, newIds, now);
            && p.recovered == KeepStale(jobs, cutoff, candidates, i)
            && p.jobs[k] == if k in p.recovered then jobs[k].(status := Failed, updatedAt := now, recovered := true) else jobs[k]
  {
    if i > 0 {
      var c := candidates[i - 1];
      RowAfter(jobs, cutoff, candidates, i - 1, newIds, now, k);
      RowAfter(jobs, cutoff, candidates, i - 1, newIds, now, c);
      KeepStaleMembers(jobs, cutoff, candidates, i - 1, c);
      assert c !in candidates[..i - 1];
    }
  }

  lemma RecoveredAreStale(jobs: seq<Job>, cutoff: int, candidates: seq<nat>, i: nat, newIds: seq<nat>, now: int)
    requires Distinct(candidates) && AllProcessing(jobs, candidates) && i <= |candidates| <= |newIds|
    ensures AfterCandidates(jobs, cutoff, candidates, i, newIds, now).recovered == KeepStale(jobs, cutoff, candidates, i)
  {
    if i > 0 {
      RowAfter(jobs, cutoff, candidates, i, newIds, now, candidates[0]);
    }
  }

  /** The `j`-th recovered row's replacement: a PENDING row of the same document under a new id. */
  lemma {:induction false} ReplacementAfter(jobs: seq<Job>, cutoff: int, candidates: seq<nat>, i: nat, newIds: seq<nat>, now: int, j: nat)
    requires Distinct(candidates) && AllProcessing(jobs, candidates) && i <= |candidates| <= |newIds|
    requires j < |AfterCandidates(jobs, cutoff, candidates, i, newIds, now).recovered|
    ensures var p := AfterCandidates(jobs, cutoff, candidates, i, newIds, now);
            p.recovered[j] < |jobs|
            && p.jobs[|jobs| + j] == Job(newIds[j], jobs[p.recovered[j]].documentId, Pending, now, false)
  {
    var p, c := AfterCandidates(jobs, cutoff, candidates, i - 1, newIds, now), candidates[i - 1];
    if j < |p.recovered| {
      ReplacementAfter(jobs, cutoff, candidates, i - 1, newIds, now, j);
    } else {
      RowAfter(jobs, cutoff, candidates, i - 1, newIds, now, c);
      KeepStaleMembers(jobs, cutoff, candidates, i - 1, c);
      assert c !in candidates[..i - 1];
    }
  }

  lemma {:induction false} KeepStaleDistinct(jobs: seq<Job>, cutoff: int, picked: seq<nat>, n: nat)
    requires n <= |picked| && Distinct(picked)
    ensures Distinct(KeepStale(jobs, cutoff, picked, n))
  {
    if n > 0 {
      KeepStaleDistinct(jobs, cutoff, picked, n - 1);
      KeepStaleMembers(jobs, cutoff, picked, n - 1, picked[n - 1]);
      assert picked[n - 1] !in picked[..n - 1];
    }
  }

  // ----- limit then filter is filter then limit -----

  lemma {:induction false} DistinctSize(s: seq<nat>)
    requires Distinct(s)
    ensures |Elements(s)| == |s|
  {
    if s != [] {
      var rest := s[..|s| - 1];
      DistinctSize(rest);
      assert Elements(s) == Elements(rest) + {Last(s)};
    }
  }

  lemma {:induction false} KeepStaleKeepsOrder(jobs: seq<Job>, cutoff: int, picked: seq<nat>, n: nat)
    requires n <= |picked| && Distinct(picked) && InOrder(jobs, picked)
    ensures Distinct(KeepStale(jobs, cutoff, picked, n)) && InOrder(jobs, KeepStale(jobs, cutoff, picked, n))
  {
    if n > 0 {
      KeepStaleKeepsOrder(jobs, cutoff, picked, n - 1);
      var before := KeepStale(jobs, cutoff, picked, n - 1);
      forall i | 0 <= i < |before| ensures before[i] != picked[n - 1] && Precedes(jobs, before[i], picked[n - 1]) {
        KeepStaleMembers(jobs, cutoff, picked, n - 1, before[i]);
        assert before[i] in picked[..n - 1];
        var j :| 0 <= j < n - 1 && picked[j] == before[i];
      }
    }
  }

  /** If a selected row is not stale, every stale row was selected. */
  lemma StaleComeFirst(jobs: seq<Job>, cutoff: int, locked: set<nat>, limit: nat, picked: seq<nat>, k: nat, other: nat)
    requires Selected(jobs, locked, limit, picked) && k in picked && !IsStale(jobs, cutoff, k)
    requires other in StaleSet(jobs, cutoff, locked)
    ensures other in picked
  {
    assert other in ProcessingSet(jobs, locked);
    assert k in ProcessingSet(jobs, locked);
  }

  lemma KeptCount(jobs: seq<Job>, cutoff: int, locked: set<nat>, limit: nat, picked: seq<nat>)
    requires Selected(jobs, locked, limit, picked)
    requires Distinct(KeepStale(jobs, cutoff, picked, |picked|))
    ensures |KeepStale(jobs, cutoff, picked, |picked|)| == Smaller(limit, |StaleSet(jobs, cutoff, locked)|)
  {
    var kept, stale := KeepStale(jobs, cutoff, picked, |picked|), StaleSet(jobs, cutoff, locked);
    forall k: nat ensures k in kept <==> k in picked && IsStale(jobs, cutoff, k) {
      KeepStaleMembers(jobs, cutoff, picked, |picked|, k);
      assert picked[..|picked|] == picked;
    }
    DistinctSize(kept);
    DistinctSize(picked);
    assert Elements(kept) <= stale;
    Subset(Elements(kept), stale);
    if stale <= Elements(picked) {
      assert Elements(kept) == stale;
      assert Elements(kept) <= Elements(picked);
      Subset(Elements(kept), Elements(picked));
    } else {
      var missed :| missed in stale && missed !in Elements(picked);
      forall k | k in picked ensures IsStale(jobs, cutoff, k) {
        if !IsStale(jobs, cutoff, k) {
          StaleComeFirst(jobs, cutoff, locked, limit, picked, k, missed);
        }
      }
      assert Elements(kept) == Elements(picked);
      assert Elements(picked) <= ProcessingSet(jobs, locked);
      assert missed in ProcessingSet(jobs, locked);
      StrictSubset(Elements(picked), ProcessingSet(jobs, locked), missed);
    }
  }

  lemma {:induction false} Subset(a: set<nat>, b: set<nat>)
    requires a <= b
    ensures |a| <= |b|
  {
    if a != {} {
      var x :| x in a;
      Subset(a - {x}, b - {x});
    }
  }

  lemma StrictSubset(a: set<nat>, b: set<nat>, x: nat)
    requires a <= b && x in b && x !in a
    ensures |a| < |b|
  {
    Subset(a, b - {x});
  }

  /** Whatever rows others have locked, the loop keeps exactly the oldest stale rows that are not, as many as
      the batch allows. */
  lemma LimitThenFilter(jobs: seq<Job>, cutoff: int, locked: set<nat>, limit: nat, picked: seq<nat>)
    requires Selected(jobs, locked, limit, picked)
    ensures OldestStale(jobs, cutoff, locked, limit, KeepStale(jobs, cutoff, picked, |picked|))
  {
    var kept := KeepStale(jobs, cutoff, picked, |picked|);
    forall k: nat ensures k in kept <==> k in picked && IsStale(jobs, cutoff, k) {
      KeepStaleMembers(jobs, cutoff, picked, |picked|, k);
      assert picked[..|picked|] == picked;
    }
    KeepStaleKeepsOrder(jobs, cutoff, picked, |picked|);
    KeptCount(jobs, cutoff, locked, limit, picked);
    forall k, other | k in kept && other in StaleSet(jobs, cutoff, locked) && other !in kept
      ensures Precedes(jobs, k, other)
    {
      assert other in ProcessingSet(jobs, locked) && other !in picked;
    }
  }

  // ----- one call, and repeated calls -----

  /** A call removes exactly the rows it recovers from the stale ones, and adds none. */
  lemma RecoveryShrinksStale(jobs: seq<Job>, cutoff: int, candidates: seq<nat>, newIds: seq<nat>, now: int)
    requires Distinct(candidates) && AllProcessing(jobs, candidates) && |candidates| <= |newIds|
    ensures var p := AfterCandidates(jobs, cutoff, candidates, |candidates|, newIds, now);
            && StaleSet(p.jobs, cutoff, {}) == StaleSet(jobs, cutoff, {}) - Elements(p.recovered)
            && |StaleSet(p.jobs, cutoff, {})| == |StaleSet(jobs, cutoff, {})| - |p.recovered|
  {
    var p := AfterCandidates(jobs, cutoff, candidates, |candidates|, newIds, now);
    forall k | 0 <= k < |p.jobs|
      ensures IsStale(p.jobs, cutoff, k) <==> k < |jobs| && IsStale(jobs, cutoff, k) && k !in p.recovered
    {
      if k < |jobs| {
        RowAfter(jobs, cutoff, candidates, |candidates|, newIds, now, k);
      } else {
        ReplacementAfter(jobs, cutoff, candidates, |candidates|, newIds, now, k - |jobs|);
      }
    }
    RecoveredAreStale(jobs, cutoff, candidates, |candidates|, newIds, now);
    KeepStaleDistinct(jobs, cutoff, candidates, |candidates|);
    DistinctSize(p.recovered);
    assert StaleSet(p.jobs, cutoff, {}) == StaleSet(jobs, cutoff, {}) - Elements(p.recovered);
    assert Elements(p.recovered) <= StaleSet(jobs, cutoff, {});
  }

  /** One call after the other at a fixed time with nothing locked: `tables` are the states in between. */
  ghost predicate Calls(tables: seq<seq<Job>>, now: int, cutoff: int, limit: nat) {
    tables != [] && forall i :: 0 <= i < |tables| - 1 ==> Call(tables[i], tables[i + 1], now, cutoff, limit)
  }

  ghost predicate Call(before: seq<Job>, after: seq<Job>, now: int, cutoff: int, limit: nat) {
    exists picked, newIds: seq<nat> ::
      && Selected(before, {}, limit, picked) && AllProcessing(before, picked) && |picked| <= |newIds|
      && after == AfterCandidates(before, cutoff, picked, |picked|, newIds, now).jobs
  }

  lemma CallShrinks(before: seq<Job>, after: seq<Job>, now: int, cutoff: int, limit: nat)
    requires Call(before, after, now, cutoff, limit)
    ensures |StaleSet(after, cutoff, {})| == |StaleSet(before, cutoff, {})| - Smaller(limit, |StaleSet(before, cutoff, {})|)
  {
    var picked, newIds: seq<nat> :|
      && Selected(before, {}, limit, picked) && AllProcessing(before, picked) && |picked| <= |newIds|
      && after == AfterCandidates(before, cutoff, picked, |picked|, newIds, now).jobs;
    LimitThenFilter(before, cutoff, {}, limit, picked);
    RecoveredAreStale(before, cutoff, picked, |picked|, newIds, now);
    RecoveryShrinksStale(before, cutoff, picked, newIds, now);
  }

  function LeftAfter(start: nat, calls: nat, limit: nat): nat {
    if calls == 0 then start
    else LeftAfter(start, calls - 1, limit) - Smaller(limit, LeftAfter(start, calls - 1, limit))
  }

  lemma {:induction false} LeftAfterIsLinear(start: nat, calls: nat, limit: nat)
    ensures LeftAfter(start, calls, limit) == if start <= calls * limit then 0 else start - calls * limit
  {
    if calls > 0 {
      LeftAfterIsLinear(start, calls - 1, limit);
      assert calls * limit == (calls - 1) * limit + limit;
    }
  }

  lemma {:induction false} CallsLeave(tables: seq<seq<Job>>, now: int, cutoff: int, limit: nat, n: nat)
    requires Calls(tables, now, cutoff, limit) && n < |tables|
    ensures |StaleSet(tables[n], cutoff, {})| == LeftAfter(|StaleSet(tables[0], cutoff, {})|, n, limit)
  {
    if n > 0 {
      CallsLeave(tables, now, cutoff, limit, n - 1);
      assert Call(tables[n - 1], tables[n - 1 + 1], now, cutoff, limit);
      CallShrinks(tables[n - 1], tables[n], now, cutoff, limit);
    }
  }

  /** After `n` calls `n * limit` stale rows are gone, or none is left: repeated calls drain the table. */
  lemma CallsDrain(tables: seq<seq<Job>>, now: int, cutoff: int, limit: nat, n: nat)
    requires Calls(tables, now, cutoff, limit) && n < |tables|
    ensures var start := |StaleSet(tables[0], cutoff, {})|;
            |StaleSet(tables[n], cutoff, {})| == if start <= n * limit then 0 else start - n * limit
  {
    CallsLeave(tables, now, cutoff, limit, n);
    LeftAfterIsLinear(|StaleSet(tables[0], cutoff, {})|, n, limit);
  }

  // ----- the partial unique index over all documents -----

  predicate ActiveFor(job: Job, documentId: nat) {
    job.documentId == documentId && ActiveJob(job.status)
  }

  function ActiveCount(jobs: seq<Job>, documentId: nat): nat {
    if jobs == [] then 0
    else ActiveCount(jobs[..|jobs| - 1], documentId) + if ActiveFor(Last(jobs), documentId) then 1 else 0
  }

  lemma {:induction false} ActiveCountOfUpdate(jobs: seq<Job>, k: nat, job: Job, documentId: nat)
    requires k < |jobs|
    ensures ActiveCount(jobs[k := job], documentId) ==
              ActiveCount(jobs, documentId) - (if ActiveFor(jobs[k], documentId) then 1 else 0)
              + (if ActiveFor(job, documentId) then 1 else 0)
  {
    var n := |jobs| - 1;
    if k < n {
      ActiveCountOfUpdate(jobs[..n], k, job, documentId);
      assert jobs[k := job][..n] == jobs[..n][k := job];
    } else {
      assert jobs[k := job][..n] == jobs[..n];
    }
  }

  /** The flip-and-insert commit leaves every document with as many active rows as before, so it never
      violates the unique index on active jobs. */
  lemma {:induction false} RecoveryKeepsActiveCounts(jobs: seq<Job>, cutoff: int, candidates: seq<nat>, i: nat, newIds: seq<nat>,
                                                     now: int, documentId: nat)
    requires Distinct(candidates) && AllProcessing(jobs, candidates) && i <= |candidates| <= |newIds|
    ensures ActiveCount(AfterCandidates(jobs, cutoff, candidates, i, newIds, now).jobs, documentId) == ActiveCount(jobs, documentId)
  {
    if i > 0 {
      var before, c := AfterCandidates(jobs, cutoff, candidates, i - 1, newIds, now), candidates[i - 1];
      RecoveryKeepsActiveCounts(jobs, cutoff, candidates, i - 1, newIds, now, documentId);
      RowAfter(jobs, cutoff, candidates, i - 1, newIds, now, c);
      KeepStaleMembers(jobs, cutoff, candidates, i - 1, c);
      assert c !in candidates[..i - 1];
      FlipAndInsertKeepsCount(before.jobs, c, newIds[|before.recovered|], now, documentId);
    }
  }

  lemma FlipAndInsertKeepsCount(jobs: seq<Job>, k: nat, id: nat, now: int, documentId: nat)
    requires IsProcessing(jobs, k)
    ensures ActiveCount(Recover(jobs, k, id, now), documentId) == ActiveCount(jobs, documentId)
  {
    var flipped := jobs[k].(status := Failed, updatedAt := now, recovered := true);
    ActiveCountOfUpdate(jobs, k, flipped, documentId);
    var after := Recover(jobs, k, id, now);
    assert after[..|after| - 1] == jobs[k := flipped];
  }
}

/**
 * The entry point `fuzzysort` of packages/core/src/fuzzysort.ts: the two
 * module-level caches, the min-queue that keeps the best `limit` results,
 * and the selection loop with its drain into a best-first array.
 */
module FuzzySort {
  import opened Wrappers
  import opened FuzzyPrepare
  import opened FuzzyMatch
  import opened FuzzyAlgorithm

  /** Queries and targets longer than this are prepared afresh every time. */
  const CACHE_LENGTH_LIMIT: nat := 999

  /** What `prepareSearch` makes of a query. */
  function SearchInfo(search: string): PreparedSearch
  {
    var lower := LowerString(Trim(search));
    PreparedSearch(Codes(lower), MaskOf(Codes(lower)), lower)
  }

  /** `preparedCache` and `preparedSearchCache`. */
  class Caches {
    var preparedCache: map<string, Prepared>
    var preparedSearchCache: map<string, PreparedSearch>
    /** The cache object and every cached record. */
    ghost var Repr: set<object>

    ghost predicate Valid()
      reads this, Repr
    {
      this in Repr && (forall k :: k in preparedCache ==> preparedCache[k] in Repr) &&
      (forall k :: k in preparedCache ==>
         |k| <= CACHE_LENGTH_LIMIT && preparedCache[k].target == k && preparedCache[k].Valid()) &&
      (forall k :: k in preparedSearchCache ==>
         |k| <= CACHE_LENGTH_LIMIT && preparedSearchCache[k] == SearchInfo(k))
    }

    constructor ()
      ensures Valid() && fresh(Repr) && preparedCache == map[] && preparedSearchCache == map[]
    {
      preparedCache := map[];
      preparedSearchCache := map[];
      Repr := {this};
    }

    /** `getPrepared`: the cached record for `target`, made and cached on first use unless `target` is too long. */
    method GetPrepared(target: string) returns (prepared: Prepared)
      requires Valid()
      modifies this
      ensures Valid() && prepared.Valid() && prepared.target == target
      ensures fresh(Repr - old(Repr)) && (prepared in Repr || fresh(prepared))
      ensures preparedSearchCache == old(preparedSearchCache)
      ensures |target| > CACHE_LENGTH_LIMIT ==> fresh(prepared) && preparedCache == old(preparedCache) && Repr == old(Repr)
      ensures |target| <= CACHE_LENGTH_LIMIT && target in old(preparedCache) ==>
                prepared == old(preparedCache)[target] && preparedCache == old(preparedCache)
      ensures |target| <= CACHE_LENGTH_LIMIT && target !in old(preparedCache) ==>
                fresh(prepared) && preparedCache == old(preparedCache)[target := prepared]
    {
      if |target| > CACHE_LENGTH_LIMIT {
        prepared := new Prepared(target);
        return;
      }
      if target in preparedCache {
        prepared := preparedCache[target];
        return;
      }
      prepared := new Prepared(target);
      Store(target, prepared);
    }

    /** `preparedCache.set(target, prepared)`. */
    method Store(target: string, prepared: Prepared)
      requires Valid() && prepared.Valid() && prepared.target == target && |target| <= CACHE_LENGTH_LIMIT
      modifies this
      ensures Valid() && Repr == old(Repr) + {prepared}
      ensures preparedCache == old(preparedCache)[target := prepared]
      ensures preparedSearchCache == old(preparedSearchCache)
    {
      preparedCache := preparedCache[target := prepared];
      Repr := Repr + {prepared};
    }

    /** `getPreparedSearch`: the same caching policy for prepared queries. */
    method GetPreparedSearch(search: string) returns (prepared: PreparedSearch)
      requires Valid()
      modifies this
      ensures Valid() && prepared == SearchInfo(search)
      ensures Repr == old(Repr) && preparedCache == old(preparedCache)
      ensures |search| > CACHE_LENGTH_LIMIT ==> preparedSearchCache == old(preparedSearchCache)
      ensures |search| <= CACHE_LENGTH_LIMIT && search in old(preparedSearchCache) ==>
                prepared == old(preparedSearchCache)[search] && preparedSearchCache == old(preparedSearchCache)
      ensures |search| <= CACHE_LENGTH_LIMIT && search !in old(preparedSearchCache) ==>
                preparedSearchCache == old(preparedSearchCache)[search := prepared]
    {
      if |search| > CACHE_LENGTH_LIMIT {
        prepared := PrepareSearch(search);
        return;
      }
      if search in preparedSearchCache {
        prepared := preparedSearchCache[search];
        return;
      }
      prepared := PrepareSearch(search);
      StoreSearch(search, prepared);
    }

    /** `preparedSearchCache.set(search, prepared)`. */
    method StoreSearch(search: string, prepared: PreparedSearch)
      requires Valid() && prepared == SearchInfo(search) && |search| <= CACHE_LENGTH_LIMIT
      modifies this
      ensures Valid() && Repr == old(Repr) && preparedCache == old(preparedCache)
      ensures preparedSearchCache == old(preparedSearchCache)[search := prepared]
    {
      preparedSearchCache := preparedSearchCache[search := prepared];
    }
  }

  /** The mask filter never rejects a real match: a subsequence's mask is contained in the target's. */
  lemma SubsequenceMaskContained(q: seq<int>, t: seq<int>)
    requires IsSubsequence(q, t)
    ensures MaskOf(q) * MaskOf(t) == MaskOf(q)
  {
    var idx :| Embedding(idx, q, t);
    forall i | 0 <= i < |q| ensures q[i] in t {
      assert t[idx[i]] == q[i];
    }
    MaskSubset(q, t);
  }

  // ------------------------------------------------------------ result queue

  /** A matched target as the queue holds it: its text, highlight indexes and score. */
  datatype Scored = Scored(target: string, indexes: seq<int>, score: real)

  /** The first position holding a lowest score. */
  function MinIndex(items: seq<Scored>): (m: nat)
    requires |items| > 0
    ensures m < |items|
    ensures forall k :: 0 <= k < |items| ==> items[m].score <= items[k].score
  {
    if |items| == 1 then 0
    else
      var m := MinIndex(items[..|items| - 1]);
      assert forall k :: 0 <= k < |items| - 1 ==> items[..|items| - 1][k] == items[k];
      if items[|items| - 1].score < items[m].score then |items| - 1 else m
  }

  /** The priority queue ordered by ascending score: the top is a worst kept result. */
  class ScoreQueue {
    var items: seq<Scored>

    constructor ()
      ensures items == []
    {
      items := [];
    }

    method Add(x: Scored)
      modifies this
      ensures items == old(items) + [x]
    {
      items := items + [x];
    }

    method Peek() returns (top: Option<Scored>)
      ensures items == [] ==> top == None
      ensures items != [] ==> top == Some(items[MinIndex(items)])
    {
      top := if items == [] then None else Some(items[MinIndex(items)]);
    }

    method ReplaceTop(x: Scored)
      requires items != []
      modifies this
      ensures items == old(items)[MinIndex(old(items)) := x]
      ensures multiset(items) == multiset(old(items)) - multiset{old(items)[MinIndex(old(items))]} + multiset{x}
      ensures forall y :: y in items ==> y == x || y in old(items)
    {
      var m := MinIndex(items);
      items := items[m := x];
    }

    /** Removes and returns a lowest-scored item. */
    method Poll() returns (top: Option<Scored>)
      modifies this
      ensures old(items) == [] ==> top == None && items == []
      ensures old(items) != [] ==>
                && top == Some(old(items)[MinIndex(old(items))])
                && multiset(items) + multiset{top.value} == multiset(old(items))
                && |items| == |old(items)| - 1
                && (forall y :: y in items ==> y in old(items))
                && (forall y :: y in old(items) ==> top.value.score <= y.score)
    {
      if items == [] {
        return None;
      }
      var m := MinIndex(items);
      top := Some(items[m]);
      assert items == items[..m] + [items[m]] + items[m + 1..];
      ghost var before := items;
      items := items[..m] + items[m + 1..];
      assert forall y :: y in items ==> y in multiset(before);
    }
  }

  // ------------------------------------------------------------ fuzzysort

  datatype Options = Options(threshold: Option<real>, limit: Option<int>)

  /** What `fuzzysort` returns per kept target. */
  datatype FuzzyResult = FuzzyResult(target: string, indexes: seq<int>)

  /** `threshold || Number.MIN_SAFE_INTEGER`: absent and zero both mean no threshold. */
  function EffectiveThreshold(options: Options): real
  {
    if options.threshold.None? || options.threshold.value == 0.0 then -(MAX_SAFE_INTEGER as real)
    else options.threshold.value
  }

  /** `limit || Number.MAX_SAFE_INTEGER`. */
  function EffectiveLimit(options: Options): int
  {
    if options.limit.None? || options.limit.value == 0 then MAX_SAFE_INTEGER else options.limit.value
  }

  /** The matches, in target order, that reach the threshold. */
  function Passing(outcomes: seq<Option<Scored>>, threshold: real): seq<Scored>
  {
    if outcomes == [] then []
    else
      var last := outcomes[|outcomes| - 1];
      Passing(outcomes[..|outcomes| - 1], threshold) +
      (if last.Some? && last.value.score >= threshold then [last.value] else [])
  }

  /** Passing keeps at most one match per target. */
  lemma {:induction false} PassingLength(outcomes: seq<Option<Scored>>, threshold: real)
    ensures |Passing(outcomes, threshold)| <= |outcomes|
  {
    if outcomes != [] {
      PassingLength(outcomes[..|outcomes| - 1], threshold);
    }
  }

  /**
   * A result passes exactly when it is some target's match and reaches the
   * threshold.
   */
  lemma {:induction false} PassingMembers(outcomes: seq<Option<Scored>>, threshold: real)
    ensures forall x :: x in Passing(outcomes, threshold) <==>
      x.score >= threshold && exists i :: 0 <= i < |outcomes| && outcomes[i] == Some(x)
  {
    if outcomes != [] {
      var init, last := outcomes[..|outcomes| - 1], outcomes[|outcomes| - 1];
      PassingMembers(init, threshold);
      forall x
        ensures x in Passing(outcomes, threshold) <==>
          x.score >= threshold && exists i :: 0 <= i < |outcomes| && outcomes[i] == Some(x)
      {
        if x.score >= threshold && exists i :: 0 <= i < |outcomes| && outcomes[i] == Some(x) {
          var i :| 0 <= i < |outcomes| && outcomes[i] == Some(x);
          if i < |init| {
            assert init[i] == Some(x);
          }
        }
        if x in Passing(init, threshold) {
          var i :| 0 <= i < |init| && init[i] == Some(x);
          assert outcomes[i] == Some(x);
        }
      }
    }
  }

  /** How many results a queue bounded by `limit` ends up with after `n` offers. */
  function Kept(n: nat, limit: int): nat
  {
    if n < limit then n else if limit < 0 then 0 else limit
  }

  /** The query codes `fuzzysort` matches with. */
  function QueryCodes(search: string): seq<int>
  {
    Codes(LowerString(Trim(search)))
  }

  /** What `algorithm` decided for one target, given the query codes (`None`: skipped or no match). */
  ghost predicate MatchOutcome(q: seq<int>, target: string, outcome: Option<Scored>)
  {
    var t := Codes(LowerString(target));
    (outcome.Some? <==> target != [] && |q| > 0 && IsSubsequence(q, t)) &&
    (outcome.Some? ==> outcome.value.target == target && Embedding(outcome.value.indexes, q, t))
  }

  ghost predicate OutcomeFor(search: string, target: string, outcome: Option<Scored>)
  {
    MatchOutcome(QueryCodes(search), target, outcome)
  }

  /**
   * `fuzzysort`: prepare the query, skip empty targets and targets whose mask
   * lacks a query bit, run `algorithm` on the rest, offer matches reaching the
   * threshold to a queue that keeps the `limit` best, and drain it into an
   * array best first. The ghost outputs record every target's outcome, the
   * kept results in output order and the results pushed out of the queue.
   */
  method FuzzySort(caches: Caches, search: string, targets: seq<string>, options: Options)
    returns (results: array<FuzzyResult>, ghost outcomes: seq<Option<Scored>>,
             ghost ranked: seq<Scored>, ghost dropped: seq<Scored>)
    requires caches.Valid()
    modifies caches.Repr
    ensures caches.Valid() && fresh(caches.Repr - old(caches.Repr)) && fresh(results)
    ensures |outcomes| == |targets|
    ensures forall i :: 0 <= i < |targets| ==> OutcomeFor(search, targets[i], outcomes[i])
    ensures multiset(ranked) + multiset(dropped) == multiset(Passing(outcomes, EffectiveThreshold(options)))
    ensures |ranked| == Kept(|Passing(outcomes, EffectiveThreshold(options))|, EffectiveLimit(options))
    ensures Descending(ranked)
    ensures forall d, r :: d in dropped && r in ranked ==> d.score <= r.score
    ensures results[..] == AsResults(ranked)
  {
    var preparedSearch := caches.GetPreparedSearch(search);
    var threshold := EffectiveThreshold(options);
    var limit := EffectiveLimit(options);
    var fpq := new ScoreQueue();
    var resultsLen;
    resultsLen, outcomes, dropped := Select(caches, search, preparedSearch, targets, threshold, limit, fpq);
    ghost var kept := fpq.items;
    results, ranked := Drain(fpq, resultsLen);
    forall d, r | d in dropped && r in ranked ensures d.score <= r.score {
      assert r in multiset(kept);
    }
  }

  /** The `fuzzysort` loop over the targets, offering each match that reaches `threshold` to `fpq`. */
  method Select(caches: Caches, search: string, preparedSearch: PreparedSearch, targets: seq<string>,
                threshold: real, limit: int, fpq: ScoreQueue)
    returns (resultsLen: nat, ghost outcomes: seq<Option<Scored>>, ghost dropped: seq<Scored>)
    requires caches.Valid() && preparedSearch == SearchInfo(search) && fpq.items == [] && fpq !in caches.Repr
    modifies caches.Repr, fpq
    ensures caches.Valid() && fresh(caches.Repr - old(caches.Repr)) && fpq !in caches.Repr
    ensures |outcomes| == |targets| && OutcomesSoFar(search, targets, outcomes)
    ensures resultsLen == |fpq.items| && TopKept(fpq.items, dropped, Passing(outcomes, threshold), limit)
  {
    resultsLen := 0;
    outcomes, dropped := [], [];
    for i := 0 to |targets|
      invariant caches.Valid() && fresh(caches.Repr - old(caches.Repr)) && fpq !in caches.Repr
      invariant |outcomes| == i && OutcomesSoFar(search, targets, outcomes)
      invariant resultsLen == |fpq.items| && TopKept(fpq.items, dropped, Passing(outcomes, threshold), limit)
    {
      var outcome := MatchTarget(caches, search, preparedSearch, targets[i]);
      resultsLen, dropped := Record(fpq, outcome, threshold, limit, resultsLen, outcomes, dropped);
      OutcomesSnoc(search, targets, outcomes, outcome);
      outcomes := outcomes + [outcome];
    }
  }

  /** The outcomes recorded so far are those of the first targets. */
  ghost predicate OutcomesSoFar(search: string, targets: seq<string>, outcomes: seq<Option<Scored>>)
  {
    |outcomes| <= |targets| && forall j :: 0 <= j < |outcomes| ==> OutcomeFor(search, targets[j], outcomes[j])
  }

  lemma OutcomesSnoc(search: string, targets: seq<string>, outcomes: seq<Option<Scored>>, outcome: Option<Scored>)
    requires OutcomesSoFar(search, targets, outcomes) && |outcomes| < |targets|
    requires OutcomeFor(search, targets[|outcomes|], outcome)
    ensures OutcomesSoFar(search, targets, outcomes + [outcome])
  {
    forall j | 0 <= j < |outcomes| + 1
      ensures OutcomeFor(search, targets[j], (outcomes + [outcome])[j])
    {
      if j < |outcomes| {
        assert (outcomes + [outcome])[j] == outcomes[j];
      }
    }
  }

  /**
   * The queue keeps the best `limit` of the offers `passing` (all of them
   * while fewer): kept and pushed-out results together are the offers, and
   * nothing pushed out beats anything kept.
   */
  ghost predicate TopKept(items: seq<Scored>, dropped: seq<Scored>, passing: seq<Scored>, limit: int)
  {
    multiset(items) + multiset(dropped) == multiset(passing) &&
    |items| == Kept(|passing|, limit) &&
    (forall d, r :: d in dropped && r in items ==> d.score <= r.score) &&
    (dropped != [] ==> |items| >= limit)
  }

  /** The end of one `fuzzysort` iteration: a match reaching the threshold is offered to the queue. */
  method Record(fpq: ScoreQueue, outcome: Option<Scored>, threshold: real, limit: int, resultsLen: nat,
                ghost outcomes: seq<Option<Scored>>, ghost dropped: seq<Scored>)
    returns (newLen: nat, ghost newDropped: seq<Scored>)
    requires resultsLen == |fpq.items| && TopKept(fpq.items, dropped, Passing(outcomes, threshold), limit)
    modifies fpq
    ensures newLen == |fpq.items| && TopKept(fpq.items, newDropped, Passing(outcomes + [outcome], threshold), limit)
  {
    assert (outcomes + [outcome])[..|outcomes|] == outcomes;
    newLen, newDropped := resultsLen, dropped;
    if outcome.Some? && outcome.value.score >= threshold {
      newLen, newDropped := Offer(fpq, outcome.value, limit, resultsLen, dropped, Passing(outcomes, threshold));
    }
  }

  /**
   * One offer to the bounded queue: added while fewer than `limit` results are
   * kept, otherwise swapped for the top only when strictly better. Whatever
   * leaves (the old top or the offer itself) scores no higher than anything kept.
   */
  method Offer(fpq: ScoreQueue, scored: Scored, limit: int, resultsLen: nat, ghost dropped: seq<Scored>,
               ghost passing: seq<Scored>)
    returns (newLen: nat, ghost newDropped: seq<Scored>)
    requires resultsLen == |fpq.items| && TopKept(fpq.items, dropped, passing, limit)
    modifies fpq
    ensures newLen == |fpq.items| && TopKept(fpq.items, newDropped, passing + [scored], limit)
  {
    newDropped := dropped;
    if resultsLen < limit {
      KeptAdd(fpq.items, dropped, passing, limit, scored);
      fpq.Add(scored);
      newLen := resultsLen + 1;
    } else {
      newLen := resultsLen;
      var next := fpq.Peek();
      if next.Some? && scored.score > next.value.score {
        ghost var top := next.value;
        ghost var items := fpq.items;
        fpq.ReplaceTop(scored);
        KeptSwap(items, fpq.items, dropped, passing, limit, scored);
        newDropped := dropped + [top];
      } else {
        KeptReject(fpq.items, dropped, passing, limit, scored);
        newDropped := dropped + [scored];
      }
    }
  }

  /** An offer made while fewer than `limit` are kept is kept. */
  lemma KeptAdd(items: seq<Scored>, dropped: seq<Scored>, passing: seq<Scored>, limit: int, x: Scored)
    requires TopKept(items, dropped, passing, limit) && |items| < limit
    ensures TopKept(items + [x], dropped, passing + [x], limit)
  {
    assert dropped == [];
  }

  /** An offer strictly better than the top replaces it, and the old top is pushed out. */
  lemma KeptSwap(items: seq<Scored>, items': seq<Scored>, dropped: seq<Scored>, passing: seq<Scored>,
                 limit: int, x: Scored)
    requires TopKept(items, dropped, passing, limit) && |items| >= limit && items != []
    requires x.score > items[MinIndex(items)].score
    requires |items'| == |items|
    requires multiset(items') == multiset(items) - multiset{items[MinIndex(items)]} + multiset{x}
    requires forall y :: y in items' ==> y == x || y in items
    ensures TopKept(items', dropped + [items[MinIndex(items)]], passing + [x], limit)
  {
    var top := items[MinIndex(items)];
    SwapMultiset(items, items', dropped, passing, top, x);
    SwapOrdered(items, items', dropped, x);
  }

  /** After the swap, kept and pushed-out results together are still the offers. */
  lemma SwapMultiset(items: seq<Scored>, items': seq<Scored>, dropped: seq<Scored>, passing: seq<Scored>,
                     top: Scored, x: Scored)
    requires top in items && multiset(items) + multiset(dropped) == multiset(passing)
    requires multiset(items') == multiset(items) - multiset{top} + multiset{x}
    ensures multiset(items') + multiset(dropped + [top]) == multiset(passing + [x])
  {
    assert multiset(items') + multiset{top} == multiset(items) + multiset{x};
    assert multiset(dropped + [top]) == multiset(dropped) + multiset{top};
  }

  /** After the swap, nothing pushed out (the old top included) beats anything kept. */
  lemma SwapOrdered(items: seq<Scored>, items': seq<Scored>, dropped: seq<Scored>, x: Scored)
    requires items != [] && x.score > items[MinIndex(items)].score
    requires forall d, r :: d in dropped && r in items ==> d.score <= r.score
    requires forall y :: y in items' ==> y == x || y in items
    ensures forall d, r :: d in dropped + [items[MinIndex(items)]] && r in items' ==> d.score <= r.score
  {
    var top := items[MinIndex(items)];
    forall d, r | d in dropped + [top] && r in items'
      ensures d.score <= r.score
    {
      if d != top {
        assert d in dropped;
        assert d.score <= top.score;
      }
      if r != x {
        var k :| 0 <= k < |items| && items[k] == r;
      }
    }
  }

  /** An offer no better than the top (or with nothing kept) is pushed out at once. */
  lemma KeptReject(items: seq<Scored>, dropped: seq<Scored>, passing: seq<Scored>, limit: int, x: Scored)
    requires TopKept(items, dropped, passing, limit) && |items| >= limit
    requires items != [] ==> x.score <= items[MinIndex(items)].score
    ensures TopKept(items, dropped + [x], passing + [x], limit)
  {
    assert multiset(dropped + [x]) == multiset(dropped) + multiset{x};
  }

  /** The drain: poll the lowest score `resultsLen` times, filling the array from its end. */
  method Drain(fpq: ScoreQueue, resultsLen: nat) returns (results: array<FuzzyResult>, ghost ranked: seq<Scored>)
    requires |fpq.items| == resultsLen
    modifies fpq
    ensures fresh(results) && results.Length == resultsLen
    ensures multiset(ranked) == old(multiset(fpq.items))
    ensures Descending(ranked)
    ensures |ranked| == resultsLen
    ensures results[..] == AsResults(ranked)
  {
    ranked := [];
    if resultsLen == 0 {
      results := new FuzzyResult[0];
      return;
    }
    results := new FuzzyResult[resultsLen](_ => FuzzyResult([], []));
    ghost var kept := fpq.items;
    var i := resultsLen - 1;
    while i >= 0
      invariant -1 <= i < resultsLen == results.Length && |fpq.items| == i + 1
      invariant Draining(fpq.items, ranked, kept) && Filled(results[..], i + 1, ranked)
      modifies fpq, results
    {
      ghost var items, before := fpq.items, results[..];
      var next := fpq.Poll();
      DrainStep(items, fpq.items, next.value, ranked, kept);
      results[i] := FuzzyResult(next.value.target, next.value.indexes);
      FilledStep(before, i, next.value, ranked);
      ranked := [next.value] + ranked;
      i := i - 1;
    }
    assert results[..] == AsResults(ranked);
    assert multiset(ranked) == multiset(kept) by {
      assert fpq.items == [];
    }
  }

  /**
   * Halfway through the drain: the polled results and what is still queued
   * are the kept results, the polled ones run best first, and nothing still
   * queued beats the last one polled.
   */
  ghost predicate Draining(items: seq<Scored>, ranked: seq<Scored>, kept: seq<Scored>)
  {
    multiset(items) + multiset(ranked) == multiset(kept) &&
    Descending(ranked) &&
    (ranked != [] ==> forall x :: x in items ==> x.score >= ranked[0].score)
  }

  /** The array from `from` on holds the polled results, best first. */
  ghost predicate Filled(results: seq<FuzzyResult>, from: nat, ranked: seq<Scored>)
  {
    from + |ranked| == |results| &&
    forall k :: from <= k < |results| ==>
      results[k] == FuzzyResult(ranked[k - from].target, ranked[k - from].indexes)
  }

  lemma FilledStep(results: seq<FuzzyResult>, i: nat, x: Scored, ranked: seq<Scored>)
    requires i < |results| && Filled(results, i + 1, ranked)
    ensures Filled(results[i := FuzzyResult(x.target, x.indexes)], i, [x] + ranked)
  {
  }

  lemma DrainStep(items: seq<Scored>, items': seq<Scored>, top: Scored, ranked: seq<Scored>, kept: seq<Scored>)
    requires Draining(items, ranked, kept) && items != []
    requires multiset(items') + multiset{top} == multiset(items)
    requires forall y :: y in items' ==> y in items
    requires forall y :: y in items ==> top.score <= y.score
    ensures Draining(items', [top] + ranked, kept)
  {
    assert top in multiset(items);
    if ranked != [] {
      assert top.score >= ranked[0].score;
    }
    DescendingPrepend(top, ranked);
    assert multiset([top] + ranked) == multiset{top} + multiset(ranked);
  }

  /** Best first: scores never increase along the sequence. */
  ghost predicate Descending(ranked: seq<Scored>)
  {
    forall i, j :: 0 <= i < j < |ranked| ==> ranked[i].score >= ranked[j].score
  }

  lemma DescendingPrepend(x: Scored, ranked: seq<Scored>)
    requires Descending(ranked) && (ranked != [] ==> x.score >= ranked[0].score)
    ensures Descending([x] + ranked)
  {
    var r := [x] + ranked;
    forall i, j | 0 <= i < j < |r| ensures r[i].score >= r[j].score {
      if i == 0 && j > 1 {
        assert r[j] == ranked[j - 1];
      }
    }
  }

  /** The public view of ranked results: target and highlight indexes. */
  function AsResults(ranked: seq<Scored>): (r: seq<FuzzyResult>)
    ensures |r| == |ranked|
    ensures forall i :: 0 <= i < |r| ==> r[i] == FuzzyResult(ranked[i].target, ranked[i].indexes)
  {
    seq(|ranked|, i requires 0 <= i < |ranked| => FuzzyResult(ranked[i].target, ranked[i].indexes))
  }

  /**
   * The body of the `fuzzysort` loop for one target, up to the threshold test:
   * skip an empty target, else fetch its prepared record and evaluate it.
   */
  method MatchTarget(caches: Caches, ghost search: string, preparedSearch: PreparedSearch, target: string)
    returns (outcome: Option<Scored>)
    requires caches.Valid() && preparedSearch == SearchInfo(search)
    modifies caches.Repr
    ensures caches.Valid() && OutcomeFor(search, target, outcome)
    ensures fresh(caches.Repr - old(caches.Repr))
  {
    if target == [] {
      return None;
    }
    var preparedTarget := caches.GetPrepared(target);
    outcome := Evaluate(preparedSearch, preparedTarget);
  }

  /** The mask test, then `algorithm`, on one prepared target; a match is snapshotted with its score. */
  method Evaluate(preparedSearch: PreparedSearch, prepared: Prepared) returns (outcome: Option<Scored>)
    requires prepared.Valid() && prepared.target != [] && preparedSearch.lowerCodes == Codes(preparedSearch.lower)
    requires preparedSearch.bitflags == MaskOf(preparedSearch.lowerCodes)
    modifies prepared
    ensures prepared.Valid() && MatchOutcome(preparedSearch.lowerCodes, prepared.target, outcome)
  {
    if preparedSearch.bitflags * prepared.bigflags != preparedSearch.bitflags {
      if IsSubsequence(preparedSearch.lowerCodes, prepared.targetLowerCodes) {
        SubsequenceMaskContained(preparedSearch.lowerCodes, prepared.targetLowerCodes);
      }
      return None;
    }
    var result, layout := Algorithm(preparedSearch, prepared);
    if result == null {
      return None;
    }
    outcome := Some(Scored(result.target, result.indexes, result.score));
  }
}

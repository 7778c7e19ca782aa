/**
 * The matching steps of `algorithm` in packages/core/src/fuzzysort.ts:
 * the greedy loose scan (the only pass/fail decision), the strict re-scan
 * with bounded backtracking over word beginnings, the substring rewrite and
 * the integer bookkeeping (extra match groups, unmatched distance).
 */
module FuzzyMatch {
  import opened Wrappers
  import opened FuzzyBeginnings

  /** `s[i]` as JavaScript reads it: `undefined` outside the array. */
  function At(s: seq<int>, i: int): Option<int>
  {
    if 0 <= i < |s| then Some(s[i]) else None
  }

  ghost predicate Increasing(idx: seq<int>)
  {
    forall k, m :: 0 <= k < m < |idx| ==> idx[k] < idx[m]
  }

  /** `idx` places every code of `q` at a position of `t` holding that code, left to right. */
  ghost predicate Embedding(idx: seq<int>, q: seq<int>, t: seq<int>)
  {
    |idx| == |q| && Increasing(idx) &&
    forall k :: 0 <= k < |idx| ==> 0 <= idx[k] < |t| && t[idx[k]] == q[k]
  }

  ghost predicate IsSubsequence(q: seq<int>, t: seq<int>)
  {
    exists idx :: Embedding(idx, q, t)
  }

  /** In a strictly increasing sequence of integers, entry `k` is at least `k` above the first. */
  lemma {:induction false} IncreasingSpread(idx: seq<int>, k: nat)
    requires Increasing(idx) && k < |idx|
    ensures idx[k] >= idx[0] + k
  {
    if k > 0 {
      IncreasingSpread(idx, k - 1);
    }
  }

  /** A query only embeds into a target at least as long. */
  lemma EmbeddingFits(idx: seq<int>, q: seq<int>, t: seq<int>)
    requires Embedding(idx, q, t)
    ensures |q| <= |t|
  {
    if |idx| > 0 {
      IncreasingSpread(idx, |idx| - 1);
    }
  }

  // ------------------------------------------------------------ loose scan

  /** The leftmost greedy embedding of `q` into `t` using positions `>= from`. */
  function GreedyEmbed(q: seq<int>, t: seq<int>, from: nat): (r: Option<seq<int>>)
    ensures r.Some? ==> |r.value| == |q| && forall k :: 0 <= k < |q| ==> from <= r.value[k]
    decreases |t| - from, |q|
  {
    if q == [] then Some([])
    else if from >= |t| then None
    else if t[from] == q[0] then
      match GreedyEmbed(q[1..], t, from + 1)
      case Some(rest) => Some([from] + rest)
      case None => None
    else GreedyEmbed(q, t, from + 1)
  }

  /** What the greedy scan finds is an embedding, using positions `>= from`. */
  lemma {:induction false} GreedySound(q: seq<int>, t: seq<int>, from: nat)
    requires GreedyEmbed(q, t, from).Some?
    ensures Embedding(GreedyEmbed(q, t, from).value, q, t)
    ensures forall k :: 0 <= k < |q| ==> from <= GreedyEmbed(q, t, from).value[k]
    decreases |t| - from, |q|
  {
    if q != [] && from < |t| {
      if t[from] == q[0] {
        GreedySound(q[1..], t, from + 1);
        var rest := GreedyEmbed(q[1..], t, from + 1).value;
        var r := [from] + rest;
        assert forall k :: 1 <= k < |r| ==> r[k] == rest[k - 1];
      } else {
        GreedySound(q, t, from + 1);
      }
    }
  }

  /**
   * Whenever some embedding uses only positions `>= from`, the greedy scan
   * succeeds, and each of its positions is at or before that embedding's.
   */
  lemma {:induction false} GreedyComplete(q: seq<int>, t: seq<int>, from: nat, idx: seq<int>)
    requires Embedding(idx, q, t)
    requires forall k :: 0 <= k < |idx| ==> from <= idx[k]
    ensures GreedyEmbed(q, t, from).Some?
    ensures forall k :: 0 <= k < |q| ==> GreedyEmbed(q, t, from).value[k] <= idx[k]
    decreases |t| - from, |q|
  {
    if q != [] {
      assert idx[0] < |t|;
      if t[from] == q[0] {
        var tail := idx[1..];
        assert Embedding(tail, q[1..], t) by {
          forall k | 0 <= k < |tail| ensures 0 <= tail[k] < |t| && t[tail[k]] == q[1..][k] {
            assert tail[k] == idx[k + 1];
          }
        }
        forall k | 0 <= k < |tail| ensures from + 1 <= tail[k] {
          assert idx[0] < idx[k + 1];
        }
        GreedyComplete(q[1..], t, from + 1, tail);
        var rest := GreedyEmbed(q[1..], t, from + 1).value;
        assert GreedyEmbed(q, t, from).value == [from] + rest;
      } else {
        forall k | 0 <= k < |idx| ensures from + 1 <= idx[k] {
          if k > 0 { assert idx[0] < idx[k]; }
        }
        GreedyComplete(q, t, from + 1, idx);
      }
    }
  }

  /** The greedy scan from 0 succeeds exactly on subsequences. */
  lemma GreedyIffSubsequence(q: seq<int>, t: seq<int>)
    ensures GreedyEmbed(q, t, 0).Some? <==> IsSubsequence(q, t)
  {
    if GreedyEmbed(q, t, 0).Some? {
      GreedySound(q, t, 0);
    }
    if IsSubsequence(q, t) {
      var idx :| Embedding(idx, q, t);
      GreedyComplete(q, t, 0, idx);
    }
  }

  /** `Some(m) + r` lifted over `Option`. */
  function Prepend(m: seq<int>, r: Option<seq<int>>): Option<seq<int>>
  {
    match r
    case Some(rest) => Some(m + rest)
    case None => None
  }

  /**
   * The first loop of `algorithm`. It compares the current query code with
   * `targetLowerCodes[targetI]` before checking `targetI`, so an empty query
   * (whose first code is `undefined`) can only meet `undefined`, and then the
   * bound check still rejects it. On success `targetI` is left at the last
   * matched position.
   */
  method LooseScan(searchLowerCodes: seq<int>, targetLowerCodes: seq<int>)
    returns (found: bool, matchesSimple: seq<int>, targetI: nat)
    ensures found <==> |searchLowerCodes| > 0 && GreedyEmbed(searchLowerCodes, targetLowerCodes, 0).Some?
    ensures found ==> GreedyEmbed(searchLowerCodes, targetLowerCodes, 0) == Some(matchesSimple)
    ensures found ==> targetI == matchesSimple[|matchesSimple| - 1] < |targetLowerCodes|
  {
    var q, t := searchLowerCodes, targetLowerCodes;
    var searchLowerCode := At(q, 0);
    var searchI := 0;
    targetI := 0;
    matchesSimple := [];
    assert q[0..] == q;
    assert Prepend([], GreedyEmbed(q, t, 0)) == GreedyEmbed(q, t, 0) by {
      if GreedyEmbed(q, t, 0).Some? { assert [] + GreedyEmbed(q, t, 0).value == GreedyEmbed(q, t, 0).value; }
    }
    while true
      invariant targetI < |t| || (targetI == 0 && |t| == 0)
      invariant |q| == 0 ==> searchLowerCode.None?
      invariant |q| > 0 ==> searchI < |q| && searchLowerCode == Some(q[searchI]) && |matchesSimple| == searchI
      invariant |q| > 0 ==> GreedyEmbed(q, t, 0) == Prepend(matchesSimple, GreedyEmbed(q[searchI..], t, targetI))
      decreases |t| - targetI
    {
      var isMatch := searchLowerCode == At(t, targetI);
      if isMatch {
        if |q| > 0 {
          ghost var rest := GreedyEmbed(q[searchI + 1..], t, targetI + 1);
          assert q[searchI..][1..] == q[searchI + 1..];
          assert GreedyEmbed(q[searchI..], t, targetI) == Prepend([targetI], rest);
          assert Prepend(matchesSimple, Prepend([targetI], rest)) == Prepend(matchesSimple + [targetI], rest) by {
            if rest.Some? { assert matchesSimple + ([targetI] + rest.value) == (matchesSimple + [targetI]) + rest.value; }
          }
        }
        matchesSimple := matchesSimple + [targetI];
        searchI := searchI + 1;
        if searchI == |q| {
          assert q[searchI..] == [];
          assert matchesSimple + [] == matchesSimple;
          found := true;
          return;
        }
        searchLowerCode := At(q, searchI);
      }
      targetI := targetI + 1;
      if targetI >= |t| {
        found := false;
        return;
      }
    }
  }

  // ------------------------------------------------------------ strict scan

  /** Where the strict scan may place match `k` without a word beginning: right after match `k - 1` (or at the start). */
  function Anchor(m: seq<int>, k: nat, startI: nat): int
    requires k <= |m|
  {
    if k == 0 then startI else m[k - 1] + 1
  }

  /** Every strict match sits at its anchor or on a word beginning. */
  ghost predicate StrictPlaced(m: seq<int>, s: string, startI: nat)
  {
    forall k :: 0 <= k < |m| ==> 0 <= m[k] < |s| && (m[k] == Anchor(m, k, startI) || IsBeginning(s, m[k]))
  }

  /**
   * The strict scan between steps: the matches so far are increasing, match
   * the query, lie in `[startI, targetI)` and are placed as the scan places
   * them, and the scan stands at the anchor or on a word beginning.
   */
  ghost predicate StrictState(q: seq<int>, t: seq<int>, target: string, startI: nat, m: seq<int>, targetI: nat)
  {
    && |t| == |target| && startI <= targetI <= |t| && |m| < |q|
    && Increasing(m)
    && (forall k :: 0 <= k < |m| ==> startI <= m[k] < targetI && t[m[k]] == q[k])
    && StrictPlaced(m, target, startI)
    && (targetI < |t| ==> targetI == Anchor(m, |m|, startI) || IsBeginning(target, targetI))
  }

  /** A match extends the state, and completes an embedding when it is the last. */
  lemma StrictPush(q: seq<int>, t: seq<int>, target: string, startI: nat, m: seq<int>, targetI: nat)
    requires StrictState(q, t, target, startI, m, targetI) && targetI < |t| && q[|m|] == t[targetI]
    ensures |m| + 1 < |q| ==> StrictState(q, t, target, startI, m + [targetI], targetI + 1)
    ensures |m| + 1 == |q| ==> Embedding(m + [targetI], q, t)
    ensures forall k :: 0 <= k < |m| + 1 ==> startI <= (m + [targetI])[k]
    ensures StrictPlaced(m + [targetI], target, startI)
  {
    var m' := m + [targetI];
    forall k, j | 0 <= k < j < |m'|
      ensures m'[k] < m'[j]
    {
      if j < |m| {
        assert m'[k] == m[k] && m'[j] == m[j];
      } else {
        assert m'[k] == m[k];
      }
    }
    forall k | 0 <= k < |m'|
      ensures 0 <= m'[k] < |target| && (m'[k] == Anchor(m', k, startI) || IsBeginning(target, m'[k]))
      ensures startI <= m'[k] < targetI + 1 && t[m'[k]] == q[k]
    {
      if k < |m| {
        assert m'[k] == m[k];
        assert Anchor(m', k, startI) == Anchor(m, k, startI);
      } else {
        assert Anchor(m', k, startI) == Anchor(m, |m|, startI);
      }
    }
    assert Anchor(m', |m'|, startI) == targetI + 1;
  }

  /** Running out of target drops the last match and resumes at its next beginning. */
  lemma StrictPop(q: seq<int>, t: seq<int>, target: string, startI: nat, m: seq<int>)
    requires StrictState(q, t, target, startI, m, |t|) && |m| > 0
    requires |NextTable(target)| == |target|
    ensures m[|m| - 1] < |target|
    ensures StrictState(q, t, target, startI, m[..|m| - 1], NextTable(target)[m[|m| - 1]])
  {
    var last := m[|m| - 1];
    NextTableBounds(target, last);
    var m' := m[..|m| - 1];
    forall k | 0 <= k < |m'|
      ensures Anchor(m', k, startI) == Anchor(m, k, startI)
    {
    }
  }

  /** A mismatch jumps to the next word beginning. */
  lemma StrictSkip(q: seq<int>, t: seq<int>, target: string, startI: nat, m: seq<int>, targetI: nat)
    requires StrictState(q, t, target, startI, m, targetI) && targetI < |t|
    requires |NextTable(target)| == |target|
    ensures targetI < NextTable(target)[targetI]
    ensures StrictState(q, t, target, startI, m, NextTable(target)[targetI])
  {
    NextTableBounds(target, targetI);
  }

  /**
   * The second loop of `algorithm`, started from `startI` (in the source, the
   * last loose match, since only `searchI` is reset). On a mismatch it jumps
   * to the next word beginning; when the target runs out it drops the
   * previous match and restarts after that match's next beginning, at most
   * 200 times. Terminates on the lexicographic measure (backtracks left,
   * `|t| - targetI`) because `next[i] > i`.
   */
  method StrictScan(searchLowerCodes: seq<int>, targetLowerCodes: seq<int>, target: string,
                    nextBeginningIndexes: seq<nat>, startI: nat)
    returns (successStrict: bool, matchesStrict: seq<int>)
    requires |targetLowerCodes| == |target| && nextBeginningIndexes == NextTable(target)
    requires startI <= |target|
    ensures successStrict ==> Embedding(matchesStrict, searchLowerCodes, targetLowerCodes)
    ensures successStrict ==> forall k :: 0 <= k < |matchesStrict| ==> startI <= matchesStrict[k]
    ensures successStrict ==> StrictPlaced(matchesStrict, target, startI)
  {
    var q, t, next := searchLowerCodes, targetLowerCodes, nextBeginningIndexes;
    var targetLen := |t|;
    var searchI := 0;
    var targetI: nat := startI;
    successStrict := false;
    matchesStrict := [];
    var backtrackCount := 0;
    if targetI != targetLen && |q| > 0 {
      while true
        invariant StrictState(q, t, target, startI, matchesStrict, targetI)
        invariant searchI == |matchesStrict| && backtrackCount <= 200
        decreases 200 - backtrackCount, targetLen - targetI
      {
        if targetI >= targetLen {
          if searchI <= 0 {
            break;
          }
          backtrackCount := backtrackCount + 1;
          if backtrackCount > 200 {
            break;
          }
          searchI := searchI - 1;
          var lastMatch := matchesStrict[|matchesStrict| - 1];
          StrictPop(q, t, target, startI, matchesStrict);
          matchesStrict := matchesStrict[..|matchesStrict| - 1];
          targetI := next[lastMatch];
        } else {
          var isMatch := q[searchI] == t[targetI];
          if isMatch {
            StrictPush(q, t, target, startI, matchesStrict, targetI);
            matchesStrict := matchesStrict + [targetI];
            searchI := searchI + 1;
            if searchI == |q| {
              successStrict := true;
              break;
            }
            targetI := targetI + 1;
          } else {
            StrictSkip(q, t, target, startI, matchesStrict, targetI);
            targetI := next[targetI];
          }
        }
      }
    }
  }

  // ------------------------------------------------------------ substring rewrite

  /** The loose match rewritten to the run `substringIndex, substringIndex + 1, ...`. */
  method SubstringRewrite(matchesSimple: seq<int>, substringIndex: int) returns (rewritten: seq<int>)
    ensures |rewritten| == |matchesSimple|
    ensures forall i :: 0 <= i < |rewritten| ==> rewritten[i] == substringIndex + i
  {
    rewritten := matchesSimple;
    for i := 0 to |matchesSimple|
      invariant |rewritten| == |matchesSimple|
      invariant forall k :: 0 <= k < i ==> rewritten[k] == substringIndex + k
    {
      rewritten := rewritten[i := substringIndex + i];
    }
  }

  /**
   * `nextBeginningIndexes[substringIndex - 1] === substringIndex`; index -1
   * reads `undefined`.
   */
  function SubstringBeginsWord(next: seq<nat>, substringIndex: int): bool
  {
    At(next, substringIndex - 1) == Some(substringIndex)
  }

  /** The test is true exactly when the substring starts on a word beginning other than position 0. */
  lemma SubstringBeginsWordIff(s: string, substringIndex: int)
    requires 0 <= substringIndex < |s|
    ensures SubstringBeginsWord(NextTable(s), substringIndex) <==> substringIndex > 0 && IsBeginning(s, substringIndex)
  {
    if substringIndex > 0 {
      var f := FirstBeginningFrom(s, substringIndex);
      assert NextTable(s)[substringIndex - 1] == f;
    }
  }

  /** A contiguous lowered occurrence of the query is an embedding. */
  lemma RunIsEmbedding(q: seq<int>, t: seq<int>, start: int, run: seq<int>)
    requires 0 <= start && start + |q| <= |t| && t[start..start + |q|] == q
    requires |run| == |q| && forall i :: 0 <= i < |run| ==> run[i] == start + i
    ensures Embedding(run, q, t)
  {
    forall k | 0 <= k < |run| ensures t[run[k]] == q[k] {
      assert t[start..start + |q|][k] == t[start + k];
    }
  }

  // ------------------------------------------------------------ bookkeeping

  /** Number of positions where the match is not contiguous with the previous one. */
  function GapCount(best: seq<int>): nat
  {
    if |best| <= 1 then 0
    else GapCount(best[..|best| - 1]) + (if best[|best| - 1] - best[|best| - 2] != 1 then 1 else 0)
  }

  /** `unmatchedDistance`: spread of the match minus the query length minus one. */
  function UnmatchedDistance(best: seq<int>): int
    requires |best| >= 1
  {
    best[|best| - 1] - best[0] - (|best| - 1)
  }

  ghost predicate IsRun(best: seq<int>)
  {
    forall k :: 0 <= k < |best| ==> best[k] == best[0] + k
  }

  /**
   * For a strictly increasing match: every extra group costs at least one
   * unmatched position, and both quantities vanish exactly on a contiguous run.
   */
  lemma {:induction false} GroupsWithinDistance(best: seq<int>)
    requires |best| >= 1 && Increasing(best)
    ensures 0 <= GapCount(best) <= UnmatchedDistance(best)
    ensures GapCount(best) == 0 <==> UnmatchedDistance(best) == 0
    ensures UnmatchedDistance(best) == 0 <==> IsRun(best)
  {
    if |best| > 1 {
      var init := best[..|best| - 1];
      assert Increasing(init);
      GroupsWithinDistance(init);
      assert init[0] == best[0];
      if IsRun(best) {
        assert IsRun(init) by {
          forall k | 0 <= k < |init| ensures init[k] == init[0] + k {
            assert init[k] == best[k];
          }
        }
      }
      if UnmatchedDistance(best) == 0 {
        forall k | 0 <= k < |best| ensures best[k] == best[0] + k {
          if k < |init| { assert init[k] == best[k]; }
        }
      }
    }
  }
}
